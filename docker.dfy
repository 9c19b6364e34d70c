/**
 * The part of the Docker engine API the deployer uses: inspecting a swarm service by
 * name and updating it under optimistic concurrency (the update names the version it
 * read, and is refused when the service has moved on). Engine failures are an oracle,
 * `faults`, naming the calls that fail and the error each one returns.
 */
module Docker {
  import opened Wrappers

  /** A swarm service: its ID, the version index of its spec and the image it runs. */
  datatype Service = Service(id: string, version: nat, image: string)

  /** The engine calls the deployer makes, with their arguments. */
  datatype Command =
    | Inspect(name: string)
    | Update(id: string, version: nat, image: string)

  function NotFound(ref: string): string
  {
    "service " + ref + " not found"
  }

  const OutOfSequence := "update out of sequence"

  /** The services of a swarm, by name. */
  class Engine {
    var services: map<string, Service>
    var faults: map<Command, string>

    /** No service has an empty name, and no two services share an ID. */
    ghost predicate Valid()
      reads this
    {
      && "" !in services
      && forall a, b | a in services && b in services :: services[a].id == services[b].id ==> a == b
    }

    /** A swarm holding `services`, whose calls fail as `faults` says. */
    constructor (services: map<string, Service>, faults: map<Command, string>)
      requires "" !in services
      requires forall a, b | a in services && b in services :: services[a].id == services[b].id ==> a == b
      ensures Valid()
      ensures this.services == services && this.faults == faults
    {
      this.services := services;
      this.faults := faults;
    }

    /** ServiceInspectWithRaw: the service called `name`, with its current version. */
    method Inspect(name: string) returns (r: Result<Service, string>)
      ensures Command.Inspect(name) in faults ==> r == Failure(faults[Command.Inspect(name)])
      ensures Command.Inspect(name) !in faults && name in services ==> r == Success(services[name])
      ensures Command.Inspect(name) !in faults && name !in services ==> r == Failure(NotFound(name))
    {
      if Command.Inspect(name) in faults {
        return Failure(faults[Command.Inspect(name)]);
      }
      if name in services {
        return Success(services[name]);
      }
      return Failure(NotFound(name));
    }

    /**
     * ServiceUpdate: sets the image of the service with ID `id`, provided `version` is
     * still its current version; the accepted update moves the version on.
     */
    method Update(id: string, version: nat, image: string) returns (err: Option<string>)
      requires Valid()
      modifies this
      ensures Valid() && faults == old(faults)
      ensures Command.Update(id, version, image) in faults ==>
                err == Some(faults[Command.Update(id, version, image)]) && services == old(services)
      ensures Command.Update(id, version, image) !in faults ==>
                forall name | name in old(services) && old(services)[name].id == id ::
                  if old(services)[name].version == version
                  then err == None && services == old(services)[name := Service(id, version + 1, image)]
                  else err == Some(OutOfSequence) && services == old(services)
      ensures (forall name | name in old(services) :: old(services)[name].id != id) ==>
                err.Some? && services == old(services)
    {
      if Command.Update(id, version, image) in faults {
        return Some(faults[Command.Update(id, version, image)]);
      }
      if name :| name in services && services[name].id == id {
        if services[name].version != version {
          return Some(OutOfSequence);
        }
        services := services[name := Service(id, version + 1, image)];
        return None;
      }
      return Some(NotFound(id));
    }
  }
}
