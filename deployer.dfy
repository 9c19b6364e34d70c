/**
 * One cycle of the deployer (deployer/deployer.go): select the earliest due deploy from
 * the queue's sorted set, claim it by removing it, drop it if it was cancelled, load its
 * metadata, point the swarm service named after the image's repository at the new image,
 * and tell the deploy-state service the deploy passed.
 *
 * `Selection` and `Deployment` specify the two halves of a cycle as functions of the
 * state they start from; the methods of `Deployer` do the work step by step, as the
 * source does, and are proved to follow them.
 */
module Deployer {
  import opened Wrappers
  import opened Naming
  import Redis
  import Docker

  /** The JSON record stored under `request:metadata`. */
  datatype RequestMetadata = RequestMetadata(etcdDir: string, dockerUrl: string)

  /** What the deploy-state service's PUT comes back with. */
  datatype Response = Response(statusCode: int) | TransportError(error: string)

  /** A call a cycle makes on one of its collaborators. */
  datatype Call = Store(query: Redis.Command) | Engine(request: Docker.Command) | Put(url: string)

  /** The deployer's settings and the collaborators that are functions of their input. */
  datatype Config = Config(
    queueName: string,
    deployStateUri: string,
    cluster: string,
    decode: Redis.Bytes -> Result<RequestMetadata, string>,   // json.Unmarshal
    respond: string -> Response)                              // the deploy-state service

  const DeploysSet := "governator:deploys"
  const CancellationField := "cancellation"
  const MetadataField := "request:metadata"
  const InvalidResponse := "invalid response from deploy-state-service"

  function MetadataNotFound(deploy: string): string
  {
    "Deploy metadata not found for '" + deploy + "'"
  }

  /** The sorted set of scheduled deploys. */
  function DeploysKey(cfg: Config): string
  {
    GetKey(cfg.queueName, DeploysSet)
  }

  /** The member `getNextDeploy` picks: the first one scored within `[0, now]`, or "". */
  function NextDue(s: seq<Redis.Entry>, now: int): string
  {
    var due := Redis.RangeByScore(s, 0, now);
    if due == [] then "" else due[0]
  }

  /** The member picked is the earliest due one: scored within `[0, now]`, none due earlier. */
  lemma NextDueIsEarliest(s: seq<Redis.Entry>, now: int)
    requires Redis.IsSortedSet(s) && NextDue(s, now) != ""
    ensures exists e :: e in s && e.member == NextDue(s, now) && 0 <= e.score <= now &&
                        forall f :: f in s && 0 <= f.score <= now ==> e.score <= f.score
  {
    Redis.FirstInRangeIsEarliest(s, 0, now);
  }

  /** Nothing is picked when no member is scored within `[0, now]`; negative scores never are. */
  lemma NothingDueNothingPicked(s: seq<Redis.Entry>, now: int)
    requires forall e :: e in s ==> e.score < 0 || e.score > now
    ensures NextDue(s, now) == ""
  {
    if Redis.RangeByScore(s, 0, now) != [] {
      assert Redis.RangeByScore(s, 0, now)[0] in Redis.RangeByScore(s, 0, now);
    }
  }

  /** How `notifyDeployState` reads the response: a status above 399 is an error. */
  function ResponseError(response: Response): (err: Option<string>)
    ensures response.Response? ==> (err == None <==> response.statusCode <= 399)
    ensures response.Response? && response.statusCode > 399 ==> err == Some(InvalidResponse)
    ensures response.TransportError? ==> err == Some(response.error)
  {
    match response
    case TransportError(e) => Some(e)
    case Response(code) => if code > 399 then Some(InvalidResponse) else None
  }

  /** Where `getNextValidDeploy` ends: the calls made, its result, and the sorted sets after. */
  datatype SelectionOutcome = SelectionOutcome(
    made: seq<Call>,
    result: Result<Option<RequestMetadata>, string>,
    zsets: map<string, seq<Redis.Entry>>)

  /**
   * `getNextValidDeploy` as a function of the store it starts from: select, claim,
   * validate, load the metadata; every error is returned at once and every "nothing to
   * do" ends the selection with no metadata.
   */
  function Selection(cfg: Config, now: int, st: Redis.Snapshot): SelectionOutcome
  {
    var setKey := DeploysKey(cfg);
    var select := Call.Store(Redis.Command.ZRangeByScore(setKey, 0, now));
    if select.query in st.faults then
      SelectionOutcome([select], Failure(st.faults[select.query]), st.zsets)
    else
      var deploy := NextDue(st.SortedSet(setKey), now);
      if deploy == "" then SelectionOutcome([select], Success(None), st.zsets)
      else
        var claim := Call.Store(Redis.Command.ZRem(setKey, deploy));
        if claim.query in st.faults then
          SelectionOutcome([select, claim], Failure(st.faults[claim.query]), st.zsets)
        else
          var zsets := Redis.AfterZRem(st.zsets, setKey, deploy);
          if st.ZRemReply(setKey, deploy) == 0 then
            SelectionOutcome([select, claim], Success(None), zsets)
          else
            var recordKey := GetKey(cfg.queueName, deploy);
            var validate := Call.Store(Redis.Command.HExists(recordKey, CancellationField));
            if validate.query in st.faults then
              SelectionOutcome([select, claim, validate], Failure(st.faults[validate.query]), zsets)
            else if st.Field(recordKey, CancellationField).Some? then
              SelectionOutcome([select, claim, validate], Success(None), zsets)
            else
              var fetch := Call.Store(Redis.Command.HGet(recordKey, MetadataField));
              var made := [select, claim, validate, fetch];
              if fetch.query in st.faults then
                SelectionOutcome(made, Failure(st.faults[fetch.query]), zsets)
              else
                match st.Field(recordKey, MetadataField)
                case None => SelectionOutcome(made, Failure(MetadataNotFound(deploy)), zsets)
                case Some(bytes) =>
                  match cfg.decode(bytes)
                  case Failure(e) => SelectionOutcome(made, Failure(e), zsets)
                  case Success(metadata) => SelectionOutcome(made, Success(Some(metadata)), zsets)
  }

  /** Where `deploy` ends: the calls made, its error, and the services after. */
  datatype DeployOutcome = DeployOutcome(
    made: seq<Call>,
    err: Option<string>,
    services: map<string, Docker.Service>)

  /**
   * `deploy` as a function of the swarm it starts from: inspect the service named after
   * the image's repository, update its image to the whole docker URL under the version
   * just read, then notify the deploy-state service.
   */
  function Deployment(cfg: Config, metadata: RequestMetadata, services: map<string, Docker.Service>,
                      faults: map<Docker.Command, string>): DeployOutcome
  {
    var ref := ParseDockerUrl(metadata.dockerUrl);
    var inspect := Call.Engine(Docker.Command.Inspect(ref.repo));
    if inspect.request in faults then
      DeployOutcome([inspect], Some(faults[inspect.request]), services)
    else if ref.repo !in services then
      DeployOutcome([inspect], Some(Docker.NotFound(ref.repo)), services)
    else
      var service := services[ref.repo];
      var update := Call.Engine(Docker.Command.Update(service.id, service.version, metadata.dockerUrl));
      if update.request in faults then
        DeployOutcome([inspect, update], Some(faults[update.request]), services)
      else
        var url := NotifyUrl(cfg.deployStateUri, ref, cfg.cluster);
        var updated := services[ref.repo := Docker.Service(service.id, service.version + 1, metadata.dockerUrl)];
        DeployOutcome([inspect, update, Put(url)], ResponseError(cfg.respond(url)), updated)
  }

  /** The store commands a selection sends first: the range query, then the claim. */
  function SelectCommand(cfg: Config, now: int): Redis.Command
  {
    Redis.Command.ZRangeByScore(DeploysKey(cfg), 0, now)
  }

  function ClaimCommand(cfg: Config, deploy: string): Redis.Command
  {
    Redis.Command.ZRem(DeploysKey(cfg), deploy)
  }

  /** The commands on the deploy's record: the cancellation check, then the metadata read. */
  function ValidateCommand(cfg: Config, deploy: string): Redis.Command
  {
    Redis.Command.HExists(GetKey(cfg.queueName, deploy), CancellationField)
  }

  function FetchCommand(cfg: Config, deploy: string): Redis.Command
  {
    Redis.Command.HGet(GetKey(cfg.queueName, deploy), MetadataField)
  }

  /** The member a selection starting from `st` picks ("" when none is due). */
  function Due(cfg: Config, now: int, st: Redis.Snapshot): string
  {
    NextDue(st.SortedSet(DeploysKey(cfg)), now)
  }

  /** The selection got past its claim: a member was due and this connection's ZREM removed it. */
  predicate Claimed(cfg: Config, now: int, st: Redis.Snapshot)
  {
    && SelectCommand(cfg, now) !in st.faults
    && Due(cfg, now, st) != ""
    && ClaimCommand(cfg, Due(cfg, now, st)) !in st.faults
    && st.ZRemReply(DeploysKey(cfg), Due(cfg, now, st)) != 0
  }

  /**
   * With no member scored within `[0, now]`, a cycle only asks for the due members: it
   * finds none, returns no error and changes nothing.
   */
  lemma NothingDueIsANoOp(cfg: Config, now: int, st: Redis.Snapshot)
    requires SelectCommand(cfg, now) !in st.faults
    requires forall e :: e in st.SortedSet(DeploysKey(cfg)) ==> e.score < 0 || e.score > now
    ensures Selection(cfg, now, st) == SelectionOutcome([Store(SelectCommand(cfg, now))], Success(None), st.zsets)
  {
    NothingDueNothingPicked(st.SortedSet(DeploysKey(cfg)), now);
  }

  /**
   * Once a due member is selected and the ZREM goes through, the deploy set loses exactly
   * that member, whatever happens next; no other sorted set changes.
   */
  lemma ClaimRemovesExactlyTheSelected(cfg: Config, now: int, st: Redis.Snapshot)
    requires Redis.IsSortedSet(st.SortedSet(DeploysKey(cfg)))
    requires SelectCommand(cfg, now) !in st.faults
    requires Due(cfg, now, st) != ""
    requires ClaimCommand(cfg, Due(cfg, now, st)) !in st.faults
    ensures var key := DeploysKey(cfg);
            var deploy := NextDue(st.SortedSet(key), now);
            var after := Selection(cfg, now, st).zsets;
            && after.Keys == st.zsets.Keys
            && (forall k | k in st.zsets && k != key :: after[k] == st.zsets[k])
            && key in after
            && Redis.Members(after[key]) == Redis.Members(st.zsets[key]) - {deploy}
            && |after[key]| == |st.zsets[key]| - 1
  {
    var key := DeploysKey(cfg);
    var queued := st.SortedSet(key);
    var deploy := NextDue(queued, now);
    assert deploy in Redis.RangeByScore(queued, 0, now);
    assert key in st.zsets;
    ClaimedSetsAfter(cfg, now, st);
    Redis.AfterZRemMembers(st.zsets, key, deploy);
  }

  /** Past a successful ZREM, the sorted sets a selection leaves are those ZREM left. */
  lemma ClaimedSetsAfter(cfg: Config, now: int, st: Redis.Snapshot)
    requires SelectCommand(cfg, now) !in st.faults
    requires Due(cfg, now, st) != ""
    requires ClaimCommand(cfg, Due(cfg, now, st)) !in st.faults
    ensures Selection(cfg, now, st).zsets
         == Redis.AfterZRem(st.zsets, DeploysKey(cfg), Due(cfg, now, st))
  {
  }

  /**
   * A claim is granted at most once: after a ZREM has removed a member from a sorted
   * set, another ZREM of it replies 0.
   */
  lemma ClaimIsAtMostOnce(st: Redis.Snapshot, key: string, member: string)
    ensures var after := Redis.Snapshot(Redis.AfterZRem(st.zsets, key, member), st.hashes, st.faults, st.contenders);
            after.ZRemReply(key, member) == 0
  {
    var after := Redis.AfterZRem(st.zsets, key, member);
    if key in after {
      assert member !in Redis.Members(after[key]) by {
        forall f: Redis.Entry | f in after[key] ensures f.member != member {
        }
      }
    }
  }

  /**
   * When another consumer removed the selected member first, the ZREM replies 0 and the
   * cycle stops there with no error: no HEXISTS, no HGET, no deploy.
   */
  lemma LostClaimStops(cfg: Config, now: int, st: Redis.Snapshot)
    requires SelectCommand(cfg, now) !in st.faults
    requires Due(cfg, now, st) != ""
    requires ClaimCommand(cfg, Due(cfg, now, st)) !in st.faults
    requires Due(cfg, now, st) in st.contenders
    ensures var deploy := Due(cfg, now, st);
            && Selection(cfg, now, st).made == [Store(SelectCommand(cfg, now)), Store(ClaimCommand(cfg, deploy))]
            && Selection(cfg, now, st).result == Success(None)
  {
  }

  /** An error from ZREM is returned as it is, and nothing after the claim is attempted. */
  lemma ClaimErrorReturned(cfg: Config, now: int, st: Redis.Snapshot)
    requires SelectCommand(cfg, now) !in st.faults
    requires Due(cfg, now, st) != ""
    requires ClaimCommand(cfg, Due(cfg, now, st)) in st.faults
    ensures var claim := ClaimCommand(cfg, Due(cfg, now, st));
            && Selection(cfg, now, st).result == Failure(st.faults[claim])
            && Selection(cfg, now, st).made == [Store(SelectCommand(cfg, now)), Store(claim)]
            && Selection(cfg, now, st).zsets == st.zsets
  {
  }

  /** An error from ZRANGEBYSCORE is returned as it is; nothing else is sent and nothing changes. */
  lemma RangeErrorReturned(cfg: Config, now: int, st: Redis.Snapshot)
    requires SelectCommand(cfg, now) in st.faults
    ensures Selection(cfg, now, st)
         == SelectionOutcome([Store(SelectCommand(cfg, now))], Failure(st.faults[SelectCommand(cfg, now)]), st.zsets)
  {
  }

  /** An error from HEXISTS is returned as it is; the claimed deploy stays removed and HGET is not sent. */
  lemma ValidateErrorReturned(cfg: Config, now: int, st: Redis.Snapshot)
    requires Claimed(cfg, now, st)
    requires ValidateCommand(cfg, Due(cfg, now, st)) in st.faults
    ensures var deploy := Due(cfg, now, st);
            Selection(cfg, now, st) == SelectionOutcome([Store(SelectCommand(cfg, now)), Store(ClaimCommand(cfg, deploy)),
                              Store(ValidateCommand(cfg, deploy))],
                             Failure(st.faults[ValidateCommand(cfg, deploy)]),
                             Redis.AfterZRem(st.zsets, DeploysKey(cfg), deploy))
  {
  }

  /** An error from HGET is returned as it is, after the four store calls; the deploy stays removed. */
  lemma FetchErrorReturned(cfg: Config, now: int, st: Redis.Snapshot)
    requires Claimed(cfg, now, st)
    requires ValidateCommand(cfg, Due(cfg, now, st)) !in st.faults
    requires st.Field(GetKey(cfg.queueName, Due(cfg, now, st)), CancellationField).None?
    requires FetchCommand(cfg, Due(cfg, now, st)) in st.faults
    ensures var deploy := Due(cfg, now, st);
            Selection(cfg, now, st) == SelectionOutcome([Store(SelectCommand(cfg, now)), Store(ClaimCommand(cfg, deploy)),
                              Store(ValidateCommand(cfg, deploy)), Store(FetchCommand(cfg, deploy))],
                             Failure(st.faults[FetchCommand(cfg, deploy)]),
                             Redis.AfterZRem(st.zsets, DeploysKey(cfg), deploy))
  {
  }

  /** Metadata that does not decode fails the selection with the decoder's error. */
  lemma DecodeErrorReturned(cfg: Config, now: int, st: Redis.Snapshot, bytes: Redis.Bytes)
    requires Claimed(cfg, now, st)
    requires ValidateCommand(cfg, Due(cfg, now, st)) !in st.faults
    requires st.Field(GetKey(cfg.queueName, Due(cfg, now, st)), CancellationField).None?
    requires FetchCommand(cfg, Due(cfg, now, st)) !in st.faults
    requires st.Field(GetKey(cfg.queueName, Due(cfg, now, st)), MetadataField) == Some(bytes)
    requires cfg.decode(bytes).Failure?
    ensures Selection(cfg, now, st).result == Failure(cfg.decode(bytes).error)
    ensures Selection(cfg, now, st).zsets == Redis.AfterZRem(st.zsets, DeploysKey(cfg), Due(cfg, now, st))
  {
  }

  /**
   * Every error a selection returns comes from its last call: the store's error for that
   * command, or, after an HGET that succeeded, the missing-metadata error or the decoder's.
   */
  lemma SelectionErrorSource(cfg: Config, now: int, st: Redis.Snapshot)
    ensures var o := Selection(cfg, now, st);
            o.result.Failure? ==>
              && |o.made| > 0
              && var last := o.made[|o.made| - 1];
              && last.Store?
              && if last.query in st.faults then o.result.error == st.faults[last.query]
                 else
                   && last == Store(FetchCommand(cfg, Due(cfg, now, st)))
                   && match st.Field(GetKey(cfg.queueName, Due(cfg, now, st)), MetadataField)
                      case None => o.result.error == MetadataNotFound(Due(cfg, now, st))
                      case Some(bytes) => cfg.decode(bytes) == Failure(o.result.error)
  {
    var deploy := Due(cfg, now, st);
    var recordKey := GetKey(cfg.queueName, deploy);
    if SelectCommand(cfg, now) in st.faults {
      RangeErrorReturned(cfg, now, st);
    } else if deploy != "" && ClaimCommand(cfg, deploy) in st.faults {
      ClaimErrorReturned(cfg, now, st);
    } else if Claimed(cfg, now, st) {
      if ValidateCommand(cfg, deploy) in st.faults {
        ValidateErrorReturned(cfg, now, st);
      } else if st.Field(recordKey, CancellationField).None? && FetchCommand(cfg, deploy) in st.faults {
        FetchErrorReturned(cfg, now, st);
      }
    }
  }

  /**
   * A claimed deploy whose record has a `cancellation` field is dropped without error:
   * it stays out of the deploy set and its metadata is never read.
   */
  lemma CancelledIsDropped(cfg: Config, now: int, st: Redis.Snapshot)
    requires Claimed(cfg, now, st)
    requires ValidateCommand(cfg, Due(cfg, now, st)) !in st.faults
    requires st.Field(GetKey(cfg.queueName, Due(cfg, now, st)), CancellationField).Some?
    ensures var deploy := Due(cfg, now, st);
            var o := Selection(cfg, now, st);
            && o.result == Success(None)
            && o.zsets == Redis.AfterZRem(st.zsets, DeploysKey(cfg), deploy)
            && o.made[|o.made| - 1] == Store(ValidateCommand(cfg, deploy))
            && forall c | c in o.made :: !(c.Store? && c.query.HGet?)
  {
  }

  /**
   * A claimed, uncancelled deploy with no `request:metadata` fails with an error naming it,
   * and it is not put back in the deploy set.
   */
  lemma MissingMetadataFails(cfg: Config, now: int, st: Redis.Snapshot)
    requires Claimed(cfg, now, st)
    requires ValidateCommand(cfg, Due(cfg, now, st)) !in st.faults
    requires st.Field(GetKey(cfg.queueName, Due(cfg, now, st)), CancellationField).None?
    requires FetchCommand(cfg, Due(cfg, now, st)) !in st.faults
    requires st.Field(GetKey(cfg.queueName, Due(cfg, now, st)), MetadataField).None?
    ensures var deploy := Due(cfg, now, st);
            && Selection(cfg, now, st).result == Failure(MetadataNotFound(deploy))
            && Selection(cfg, now, st).zsets == Redis.AfterZRem(st.zsets, DeploysKey(cfg), deploy)
  {
  }

  /** Metadata is read only for a deploy this cycle claimed and found not cancelled. */
  lemma MetadataReadOnlyWhenAdmitted(cfg: Config, now: int, st: Redis.Snapshot)
    requires exists c | c in Selection(cfg, now, st).made :: c.Store? && c.query.HGet?
    ensures var deploy := Due(cfg, now, st);
            var recordKey := GetKey(cfg.queueName, deploy);
            && deploy != ""
            && st.ZRemReply(DeploysKey(cfg), deploy) == 1
            && st.Field(recordKey, CancellationField).None?
            && Selection(cfg, now, st).made[3] == Store(Redis.Command.HGet(recordKey, MetadataField))
  {
  }

  /**
   * A deploy that returns no error has set the image of the service named after the
   * repository to the whole docker URL, under the version it read, and the deploy-state
   * service answered the notification with a status of 399 or below.
   */
  lemma DeploySuccessMeans(cfg: Config, metadata: RequestMetadata, services: map<string, Docker.Service>,
                           faults: map<Docker.Command, string>)
    requires Deployment(cfg, metadata, services, faults).err == None
    ensures var ref := ParseDockerUrl(metadata.dockerUrl);
            var url := NotifyUrl(cfg.deployStateUri, ref, cfg.cluster);
            var d := Deployment(cfg, metadata, services, faults);
            && ref.repo in services
            && d.services == services[ref.repo := services[ref.repo].(version := services[ref.repo].version + 1,
                                                                      image := metadata.dockerUrl)]
            && d.made == [Engine(Docker.Command.Inspect(ref.repo)),
                          Engine(Docker.Command.Update(services[ref.repo].id, services[ref.repo].version, metadata.dockerUrl)),
                          Put(url)]
            && cfg.respond(url).Response? && cfg.respond(url).statusCode <= 399
  {
  }

  /** The deploy-state service is notified only after the inspect and the update were accepted. */
  lemma NotifyOnlyAfterUpdate(cfg: Config, metadata: RequestMetadata, services: map<string, Docker.Service>,
                              faults: map<Docker.Command, string>)
    requires exists c | c in Deployment(cfg, metadata, services, faults).made :: c.Put?
    ensures var ref := ParseDockerUrl(metadata.dockerUrl);
            var d := Deployment(cfg, metadata, services, faults);
            && Docker.Command.Inspect(ref.repo) !in faults
            && ref.repo in services
            && var update := Docker.Command.Update(services[ref.repo].id, services[ref.repo].version, metadata.dockerUrl);
            && update !in faults
            && d.made == [Engine(Docker.Command.Inspect(ref.repo)), Engine(update),
                          Put(NotifyUrl(cfg.deployStateUri, ref, cfg.cluster))]
            && d.services[ref.repo].image == metadata.dockerUrl
  {
  }

  /** An inspect error is the deploy's error: nothing is updated and no notification is sent. */
  lemma InspectErrorReturned(cfg: Config, metadata: RequestMetadata, services: map<string, Docker.Service>,
                             faults: map<Docker.Command, string>)
    requires Docker.Command.Inspect(ParseDockerUrl(metadata.dockerUrl).repo) in faults
    ensures var inspect := Docker.Command.Inspect(ParseDockerUrl(metadata.dockerUrl).repo);
            Deployment(cfg, metadata, services, faults) == DeployOutcome([Engine(inspect)], Some(faults[inspect]), services)
  {
  }

  /** An update error is the deploy's error: the services stay as they were and no notification is sent. */
  lemma UpdateErrorReturned(cfg: Config, metadata: RequestMetadata, services: map<string, Docker.Service>,
                            faults: map<Docker.Command, string>)
    requires var repo := ParseDockerUrl(metadata.dockerUrl).repo;
             && Docker.Command.Inspect(repo) !in faults
             && repo in services
             && Docker.Command.Update(services[repo].id, services[repo].version, metadata.dockerUrl) in faults
    ensures var repo := ParseDockerUrl(metadata.dockerUrl).repo;
            var update := Docker.Command.Update(services[repo].id, services[repo].version, metadata.dockerUrl);
            Deployment(cfg, metadata, services, faults) == DeployOutcome([Engine(Docker.Command.Inspect(repo)), Engine(update)], Some(faults[update]), services)
  {
  }

  /**
   * An image reference with no repository (one that does not parse, say) names no
   * service: the inspect of "" fails, and nothing is updated or notified.
   */
  lemma UnparsedImageFails(cfg: Config, metadata: RequestMetadata, services: map<string, Docker.Service>,
                           faults: map<Docker.Command, string>)
    requires "" !in services
    requires ParseDockerUrl(metadata.dockerUrl).repo == ""
    ensures var d := Deployment(cfg, metadata, services, faults);
            && d.made == [Engine(Docker.Command.Inspect(""))]
            && d.services == services
            && d.err == Some(if Docker.Command.Inspect("") in faults then faults[Docker.Command.Inspect("")]
                             else Docker.NotFound(""))
  {
  }

  /**
   * A deploy that sends no notification has failed on its last engine call: its error is
   * the one that call returned, or the missing service after an inspect, and the services
   * are left as they were.
   */
  lemma EngineErrorStopsDeploy(cfg: Config, metadata: RequestMetadata, services: map<string, Docker.Service>,
                               faults: map<Docker.Command, string>)
    ensures var d := Deployment(cfg, metadata, services, faults);
            (forall c | c in d.made :: !c.Put?) ==>
              && d.services == services
              && |d.made| > 0
              && var last := d.made[|d.made| - 1];
              && last.Engine?
              && if last.request in faults then d.err == Some(faults[last.request])
                 else d.made == [last] && d.err == Some(Docker.NotFound(ParseDockerUrl(metadata.dockerUrl).repo))
  {
    var d := Deployment(cfg, metadata, services, faults);
    var ref := ParseDockerUrl(metadata.dockerUrl);
    if Docker.Command.Inspect(ref.repo) !in faults && ref.repo in services {
      var update := Docker.Command.Update(services[ref.repo].id, services[ref.repo].version, metadata.dockerUrl);
      if update !in faults {
        assert d.made[2] in d.made;
      }
    }
  }

  /**
   * A status of 500 from the deploy-state service fails the deploy although the service
   * update has already been made.
   */
  lemma ServerErrorAfterUpdate(cfg: Config, metadata: RequestMetadata, services: map<string, Docker.Service>,
                               faults: map<Docker.Command, string>)
    requires var ref := ParseDockerUrl(metadata.dockerUrl);
             && Docker.Command.Inspect(ref.repo) !in faults
             && ref.repo in services
             && Docker.Command.Update(services[ref.repo].id, services[ref.repo].version, metadata.dockerUrl) !in faults
             && cfg.respond(NotifyUrl(cfg.deployStateUri, ref, cfg.cluster)) == Response(500)
    ensures var d := Deployment(cfg, metadata, services, faults);
            var repo := ParseDockerUrl(metadata.dockerUrl).repo;
            d.err == Some(InvalidResponse) && d.services[repo].image == metadata.dockerUrl
  {
  }

  /**
   * When the engine accepts both calls, the service named after the image's repository
   * gets the whole docker URL as its image and the PUT goes to that image's URL.
   */
  lemma DeployOfParsedImage(cfg: Config, metadata: RequestMetadata, services: map<string, Docker.Service>,
                            faults: map<Docker.Command, string>, ref: ImageRef)
    requires ParseDockerUrl(metadata.dockerUrl) == ref
    requires ref.repo in services && Docker.Command.Inspect(ref.repo) !in faults
    requires Docker.Command.Update(services[ref.repo].id, services[ref.repo].version, metadata.dockerUrl) !in faults
    ensures var d := Deployment(cfg, metadata, services, faults);
            && d.services[ref.repo].image == metadata.dockerUrl
            && d.made[2] == Put(NotifyUrl(cfg.deployStateUri, ref, cfg.cluster))
  {
  }

  /** The deployer: its settings and the Redis connection and engine client it borrows. */
  class Deployer {
    const store: Redis.Store
    const engine: Docker.Engine
    const queueName: string
    const deployStateUri: string
    const cluster: string
    const decode: Redis.Bytes -> Result<RequestMetadata, string>
    const respond: string -> Response
    /** Every call made on the collaborators so far, oldest first. */
    var calls: seq<Call>

    /** `New`. */
    constructor (store: Redis.Store, engine: Docker.Engine, queueName: string, deployStateUri: string,
                 cluster: string, decode: Redis.Bytes -> Result<RequestMetadata, string>,
                 respond: string -> Response)
      ensures this.store == store && this.engine == engine
      ensures Settings() == Config(queueName, deployStateUri, cluster, decode, respond)
      ensures calls == []
    {
      this.store := store;
      this.engine := engine;
      this.queueName := queueName;
      this.deployStateUri := deployStateUri;
      this.cluster := cluster;
      this.decode := decode;
      this.respond := respond;
      calls := [];
    }

    function Settings(): Config
    {
      Config(queueName, deployStateUri, cluster, decode, respond)
    }

    ghost predicate Valid()
      reads store, engine
    {
      store.Valid() && engine.Valid()
    }

    /** `getKey`. */
    function Key(key: string): string
    {
      GetKey(queueName, key)
    }

    /** `getNextDeploy`: the first member of the deploy set due by `now`, or "" if none is. */
    method GetNextDeploy(now: int) returns (r: Result<string, string>)
      modifies this
      ensures calls == old(calls) + [Call.Store(Redis.Command.ZRangeByScore(Key(DeploysSet), 0, now))]
      ensures Redis.Command.ZRangeByScore(Key(DeploysSet), 0, now) in store.faults ==>
                r == Failure(store.faults[Redis.Command.ZRangeByScore(Key(DeploysSet), 0, now)])
      ensures Redis.Command.ZRangeByScore(Key(DeploysSet), 0, now) !in store.faults ==>
                r == Success(NextDue(store.SortedSet(Key(DeploysSet)), now))
    {
      calls := calls + [Call.Store(Redis.Command.ZRangeByScore(Key(DeploysSet), 0, now))];
      var deploys := store.ZRangeByScore(Key(DeploysSet), 0, now);
      if deploys.Failure? {
        return Failure(deploys.error);
      }
      if |deploys.value| == 0 {
        return Success("");
      }
      return Success(deploys.value[0]);
    }

    /** `lockDeploy`: claim a deploy by removing it; true when this call removed it. */
    method LockDeploy(deploy: string) returns (r: Result<bool, string>)
      requires Valid()
      modifies this, store
      ensures Valid()
      ensures store.hashes == old(store.hashes) && store.faults == old(store.faults)
      ensures store.contenders == old(store.contenders)
      ensures calls == old(calls) + [Call.Store(Redis.Command.ZRem(Key(DeploysSet), deploy))]
      ensures Redis.Command.ZRem(Key(DeploysSet), deploy) in store.faults ==>
                r == Failure(store.faults[Redis.Command.ZRem(Key(DeploysSet), deploy)]) &&
                store.zsets == old(store.zsets)
      ensures Redis.Command.ZRem(Key(DeploysSet), deploy) !in store.faults ==>
                r == Success(old(store.State()).ZRemReply(Key(DeploysSet), deploy) != 0) &&
                store.zsets == Redis.AfterZRem(old(store.zsets), Key(DeploysSet), deploy)
    {
      calls := calls + [Call.Store(Redis.Command.ZRem(Key(DeploysSet), deploy))];
      var removed := store.ZRem(Key(DeploysSet), deploy);
      if removed.Failure? {
        return Failure(removed.error);
      }
      return Success(removed.value != 0);
    }

    /** `validateDeploy`: true when the deploy's record has no cancellation field. */
    method ValidateDeploy(deploy: string) returns (r: Result<bool, string>)
      modifies this
      ensures calls == old(calls) + [Call.Store(Redis.Command.HExists(Key(deploy), CancellationField))]
      ensures Redis.Command.HExists(Key(deploy), CancellationField) in store.faults ==>
                r == Failure(store.faults[Redis.Command.HExists(Key(deploy), CancellationField)])
      ensures Redis.Command.HExists(Key(deploy), CancellationField) !in store.faults ==>
                r == Success(store.State().Field(Key(deploy), CancellationField).None?)
    {
      calls := calls + [Call.Store(Redis.Command.HExists(Key(deploy), CancellationField))];
      var existsResult := store.HExists(Key(deploy), CancellationField);
      if existsResult.Failure? {
        return Failure(existsResult.error);
      }
      return Success(existsResult.value == 0);
    }

    /** `getMetadata`: read and decode the deploy's metadata; a missing field is an error. */
    method GetMetadata(deploy: string) returns (r: Result<RequestMetadata, string>)
      modifies this
      ensures calls == old(calls) + [Call.Store(Redis.Command.HGet(Key(deploy), MetadataField))]
      ensures Redis.Command.HGet(Key(deploy), MetadataField) in store.faults ==>
                r == Failure(store.faults[Redis.Command.HGet(Key(deploy), MetadataField)])
      ensures Redis.Command.HGet(Key(deploy), MetadataField) !in store.faults ==>
                match store.State().Field(Key(deploy), MetadataField)
                case None => r == Failure(MetadataNotFound(deploy))
                case Some(bytes) => r == decode(bytes)
    {
      calls := calls + [Call.Store(Redis.Command.HGet(Key(deploy), MetadataField))];
      var metadataBytes := store.HGet(Key(deploy), MetadataField);
      if metadataBytes.Failure? {
        return Failure(metadataBytes.error);
      }
      if metadataBytes.value.None? {
        return Failure(MetadataNotFound(deploy));
      }
      r := decode(metadataBytes.value.value);
    }

    /** `getNextValidDeploy`: select, claim, validate and load, as `Selection` specifies. */
    method GetNextValidDeploy(now: int) returns (r: Result<Option<RequestMetadata>, string>)
      requires Valid()
      modifies this, store
      ensures Valid()
      ensures store.hashes == old(store.hashes) && store.faults == old(store.faults)
      ensures store.contenders == old(store.contenders)
      ensures var o := Selection(Settings(), now, old(store.State()));
              calls == old(calls) + o.made && r == o.result && store.zsets == o.zsets
    {
      ghost var st := store.State();
      assert Key(DeploysSet) == DeploysKey(Settings());
      var deploy := GetNextDeploy(now);
      if deploy.Failure? {
        return Failure(deploy.error);
      }
      assert deploy.value == Due(Settings(), now, st);
      if deploy.value == "" {
        return Success(None);
      }
      var ok := LockDeploy(deploy.value);
      if ok.Failure? {
        return Failure(ok.error);
      }
      if !ok.value {
        return Success(None);
      }
      assert Claimed(Settings(), now, st);
      assert store.State().Field(Key(deploy.value), CancellationField) == st.Field(Key(deploy.value), CancellationField);
      ok := ValidateDeploy(deploy.value);
      if ok.Failure? {
        return Failure(ok.error);
      }
      if !ok.value {
        return Success(None);
      }
      var metadata := GetMetadata(deploy.value);
      if metadata.Failure? {
        return Failure(metadata.error);
      }
      return Success(Some(metadata.value));
    }

    /** `notifyDeployState`: PUT to the deploy-state service; a status above 399 is an error. */
    method NotifyDeployState(dockerUrl: string) returns (err: Option<string>)
      modifies this
      ensures calls == old(calls) + [Put(NotifyUrl(deployStateUri, ParseDockerUrl(dockerUrl), cluster))]
      ensures err == ResponseError(respond(NotifyUrl(deployStateUri, ParseDockerUrl(dockerUrl), cluster)))
    {
      var ref := ParseDockerUrl(dockerUrl);
      var fullUrl := NotifyUrl(deployStateUri, ref, cluster);
      calls := calls + [Put(fullUrl)];
      var response := respond(fullUrl);
      if response.TransportError? {
        return Some(response.error);
      }
      if response.statusCode > 399 {
        return Some(InvalidResponse);
      }
      return None;
    }

    /** `deploy`: update the service's image, then notify, as `Deployment` specifies. */
    method Deploy(metadata: RequestMetadata) returns (err: Option<string>)
      requires Valid()
      modifies this, engine
      ensures Valid() && engine.faults == old(engine.faults)
      ensures var o := Deployment(Settings(), metadata, old(engine.services), engine.faults);
              calls == old(calls) + o.made && err == o.err && engine.services == o.services
    {
      var ref := ParseDockerUrl(metadata.dockerUrl);
      calls := calls + [Call.Engine(Docker.Command.Inspect(ref.repo))];
      var service := engine.Inspect(ref.repo);
      if service.Failure? {
        return Some(service.error);
      }
      var image := metadata.dockerUrl;
      calls := calls + [Call.Engine(Docker.Command.Update(service.value.id, service.value.version, image))];
      err := engine.Update(service.value.id, service.value.version, image);
      if err.Some? {
        return err;
      }
      err := NotifyDeployState(metadata.dockerUrl);
    }

    /** `Run`: one cycle, as `Selection` followed, when it yields metadata, by `Deployment`. */
    method Run(now: int) returns (err: Option<string>)
      requires Valid()
      modifies this, store, engine
      ensures Valid()
      ensures store.hashes == old(store.hashes) && store.faults == old(store.faults)
      ensures store.contenders == old(store.contenders) && engine.faults == old(engine.faults)
      ensures var o := Selection(Settings(), now, old(store.State()));
              && store.zsets == o.zsets
              && match o.result
                 case Failure(e) =>
                   err == Some(e) && calls == old(calls) + o.made && engine.services == old(engine.services)
                 case Success(None) =>
                   err == None && calls == old(calls) + o.made && engine.services == old(engine.services)
                 case Success(Some(metadata)) =>
                   var d := Deployment(Settings(), metadata, old(engine.services), engine.faults);
                   err == d.err && calls == old(calls) + o.made + d.made && engine.services == d.services
    {
      var deploy := GetNextValidDeploy(now);
      if deploy.Failure? {
        return Some(deploy.error);
      }
      if deploy.value.None? {
        return None;
      }
      err := Deploy(deploy.value.value);
    }
  }
}
