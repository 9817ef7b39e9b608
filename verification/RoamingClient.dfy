/** SyncIdentities itself: one pass of one device, every network call of it a step of Roaming. */
module RoamingClient {
  import opened Roaming

  datatype Action = UpToDate | Pulled | Pushed | PushedNew | Synced

  datatype Outcome = Done(action: Action) | Failed

  predicate Pushes(out: Outcome) { out.Done? && (out.action.Pushed? || out.action.PushedNew? || out.action.Synced?) }

  /** What the other devices have done to the blob by the time call k is made, and whether
      call k fails. */
  datatype Network<!V> = Network(others: (nat, Cloud<V>) -> Cloud<V>, fails: nat -> bool)

  predicate ValidCloud<V>(c: Cloud<V>) { c.content.Absent? <==> c.version == 0 }

  /** Every write moves the version, and no blob is deleted. */
  ghost predicate Lawful<V(!new)>(net: Network<V>) {
    forall k, c :: ValidCloud(c) ==>
      && ValidCloud(net.others(k, c)) && c.version <= net.others(k, c).version
      && (c.version == net.others(k, c).version ==> net.others(k, c) == c)
  }

  class BlobStore<V> {
    var cloud: Cloud<V>

    constructor (cloud: Cloud<V>)
      ensures this.cloud == cloud
    {
      this.cloud := cloud;
    }

    /** PutBlob; a conflict reports the current version. */
    method PutBlob(value: V, prev: nat) returns (conflict: bool, version: nat)
      modifies this
      ensures conflict == (old(cloud).version != prev)
      ensures cloud == if conflict then old(cloud) else Cloud(prev + 1, Current(value))
      ensures version == cloud.version
    {
      conflict := cloud.version != prev;
      if !conflict {
        cloud := Cloud(prev + 1, Current(value));
      }
      version := cloud.version;
    }
  }

  // ----- trails -----

  /** The calls of a pass. It begins with a device, the blob the state fetch saw, and the blob
      as it is when the pass starts; all else follows from the calls and from `net`. */
  datatype Trail<V, D> =
    | Begun(dev: Device<V, D>, seen: Cloud<V>, start: Cloud<V>)
    | Then(prev: Trail<V, D>, event: Event<V>)

  /** The number of the call a pass makes next. */
  function CallNo<V, D>(ph: Phase<V, D>): nat {
    match ph
    case Idle => 0
    case Pulling(_) => 1
    case Pushing(_) => 2
    case Retrying(_, _, _) => 3
  }

  /** The device after the calls. */
  ghost function Dev<V, D>(p: Keys<V, D>, net: Network<V>, t: Trail<V, D>): Device<V, D>
    decreases t, 1
  {
    match t
    case Begun(dev, seen, _) => dev.(phase := Plan(p, seen, dev))
    case Then(prev, e) =>
      if Enabled(Dev(p, net, prev), e) then Next(p, Meets(p, net, prev), Dev(p, net, prev), e) else Dev(p, net, prev)
  }

  /** The blob as the calls leave it. */
  ghost function Left<V, D>(p: Keys<V, D>, net: Network<V>, t: Trail<V, D>): Cloud<V>
    decreases t, 1
  {
    match t
    case Begun(_, _, start) => start
    case Then(prev, e) => NextCloud(Meets(p, net, prev), Dev(p, net, prev), e)
  }

  /** The blob the next call meets, the others having had their turn. */
  ghost function Meets<V, D>(p: Keys<V, D>, net: Network<V>, t: Trail<V, D>): Cloud<V>
    decreases t, 2
  {
    net.others(CallNo(Dev(p, net, t).phase), Left(p, net, t))
  }

  /** Each call was the one due, and failed exactly when `net` says so. */
  ghost predicate Legal<V, D>(p: Keys<V, D>, net: Network<V>, t: Trail<V, D>) {
    match t
    case Begun(dev, _, _) => dev.phase.Idle?
    case Then(prev, e) =>
      && Legal(p, net, prev) && Enabled(Dev(p, net, prev), e) && !e.Edit? && !e.Begin?
      && (e.Fail? <==> net.fails(CallNo(Dev(p, net, prev).phase)))
  }

  /** How many of the calls wrote the blob. */
  ghost function Written<V, D>(p: Keys<V, D>, net: Network<V>, t: Trail<V, D>): nat {
    match t
    case Begun(_, _, _) => 0
    case Then(prev, e) => Written(p, net, prev) + if Writes(Meets(p, net, prev), Dev(p, net, prev), e) then 1 else 0
  }

  function Root<V, D>(t: Trail<V, D>): Trail<V, D> {
    if t.Begun? then t else Root(t.prev)
  }

  /** The trail has led to this blob and this device. */
  ghost predicate Leads<V, D>(p: Keys<V, D>, net: Network<V>, t: Trail<V, D>, c: Cloud<V>, dev: Device<V, D>) {
    Legal(p, net, t) && Left(p, net, t) == c && Dev(p, net, t) == dev
  }

  /** A pull merged a blob in. */
  ghost predicate Imported<V, D>(p: Keys<V, D>, net: Network<V>, t: Trail<V, D>) {
    match t
    case Begun(_, _, _) => false
    case Then(prev, e) => Imported(p, net, prev) || (e.Pull? && Meets(p, net, prev).content.Current?)
  }

  /** The last call failed, or was a retry that was refused in its turn. */
  ghost predicate CutShort<V, D>(p: Keys<V, D>, net: Network<V>, t: Trail<V, D>) {
    && t.Then?
    && (t.event.Fail? || (t.event.PutAgain? && !Writes(Meets(p, net, t.prev), Dev(p, net, t.prev), PutAgain)))
  }

  class RoamingDevice<V(!new), D(==)> {
    var local: V
    var version: nat
    var digest: D

    constructor (local: V, version: nat, digest: D)
      ensures this.local == local && this.version == version && this.digest == digest
    {
      this.local, this.version, this.digest := local, version, digest;
    }

    ghost function At(phase: Phase<V, D>): Device<V, D>
      reads this
    {
      Device(local, version, digest, phase)
    }

    /** pushIdentitiesWithKey, then the recording of what was pushed. */
    method Push(p: Keys<V, D>, server: BlobStore<V>, net: Network<V>, dig: D, ghost t0: Trail<V, D>)
      returns (ok: bool, ghost t: Trail<V, D>)
      requires Lawful(net) && ValidCloud(server.cloud) && Leads(p, net, t0, server.cloud, At(Pushing(dig)))
      modifies this, server
      ensures Root(t) == Root(t0) && Leads(p, net, t, server.cloud, At(Idle))
      ensures Written(p, net, t) == Written(p, net, t0) + if ok then 1 else 0
      ensures (ok <==> !CutShort(p, net, t)) && Imported(p, net, t) == Imported(p, net, t0)
      ensures ok ==> server.cloud == Cloud(version, Current(local)) && digest == dig
      ensures local == old(local) && (!ok ==> version == old(version) && digest == old(digest))
    {
      server.cloud := net.others(2, server.cloud);
      if net.fails(2) {
        return false, Then(t0, Fail);
      }
      t := Then(t0, Put);
      var data := local;
      var conflict, current := server.PutBlob(data, 0);
      if conflict {
        assert Leads(p, net, t, server.cloud, At(Retrying(dig, current, data)));
        assert Written(p, net, t) == Written(p, net, t0);
        server.cloud := net.others(3, server.cloud);
        if net.fails(3) {
          return false, Then(t, Fail);
        }
        t := Then(t, PutAgain);
        conflict, current := server.PutBlob(data, current);
        if conflict {
          return false, t;
        }
      }
      version, digest := current, dig;
      ok := true;
    }

    /** pullIdentitiesVersioned: what a pull merges in and records. */
    method PullBlob(p: Keys<V, D>, server: BlobStore<V>, net: Network<V>, changed: bool, ghost t0: Trail<V, D>)
      returns (ok: bool, unsupported: bool, dig: D, ghost t: Trail<V, D>)
      requires Lawful(net) && ValidCloud(server.cloud) && server.cloud.version > 0
      requires Leads(p, net, t0, server.cloud, At(Pulling(changed)))
      modifies this, server
      ensures Root(t) == Root(t0) && ValidCloud(server.cloud) && Written(p, net, t) == Written(p, net, t0)
      ensures dig == p.digest(local) && (ok <==> !net.fails(1)) && (ok <==> !CutShort(p, net, t))
      ensures Imported(p, net, t) == (Imported(p, net, t0) || (ok && !unsupported))
      ensures Leads(p, net, t, server.cloud, At(if ok && (changed || unsupported) then Pushing(dig) else Idle))
      ensures ok && !changed && !unsupported ==> digest == dig
    {
      server.cloud := net.others(1, server.cloud);
      dig := p.digest(local);
      unsupported := server.cloud.content.Old?;
      if net.fails(1) {
        return false, unsupported, dig, Then(t0, Fail);
      }
      t := Then(t0, Pull);
      version := server.cloud.version;
      if !unsupported {
        local := p.merge(local, server.cloud.content.value);
        dig := p.digest(local);
        if !changed {
          digest := dig;
        }
      }
      ok := true;
    }

    /** One pass, from the version `remote` that the run's state fetch saw. Every call it makes
        is a step of the model, at the blob that `net` says it met. It is up to date exactly
        when neither side moved, and fails exactly when its last call failed or was a retry
        refused in its turn. A pull-only pass writes nothing; a pass that pushes writes once and
        leaves the blob, the recorded version and the recorded digest describing its own set.
        What it reports tells a first push, a push after an import and a push alone apart. */
    method SyncIdentities(p: Keys<V, D>, server: BlobStore<V>, remote: nat, ghost seen: Cloud<V>, net: Network<V>)
      returns (out: Outcome, ghost t: Trail<V, D>)
      requires Lawful(net) && ValidCloud(server.cloud) && ValidCloud(seen)
      requires seen.version == remote <= server.cloud.version
      modifies this, server
      ensures Root(t) == old(Begun(At(Idle), seen, server.cloud)) && Leads(p, net, t, server.cloud, At(Idle))
      ensures out == Done(UpToDate) <==> old(version) == remote && p.digest(old(local)) == old(digest)
      ensures out == Done(UpToDate) ==> t.Begun?
      ensures out == Done(PushedNew) <==> Pushes(out) && remote == 0
      ensures out == Done(Synced) <==> Pushes(out) && Imported(p, net, t)
      ensures out == Done(Pulled) ==> Imported(p, net, t)
      ensures out == Done(Pulled) ==> p.digest(old(local)) == old(digest) && digest == p.digest(local)
      ensures Pushes(out) ==> digest == p.digest(local) && server.cloud == Cloud(version, Current(local))
      ensures Written(p, net, t) == if Pushes(out) then 1 else 0
      ensures out.Failed? <==> CutShort(p, net, t)
    {
      var dig := p.digest(local);
      var moved := remote != version;
      var changed := dig != digest;
      t := Begun(At(Idle), seen, server.cloud);
      if !moved && !changed {
        return Done(UpToDate), t;
      }
      var ok;
      if remote == 0 {
        ok, t := Push(p, server, net, dig, t);
        return if ok then Done(PushedNew) else Failed, t;
      }
      var pulled := false;
      if moved {
        var unsupported;
        ok, unsupported, dig, t := PullBlob(p, server, net, changed, t);
        if !ok {
          return Failed, t;
        }
        pulled := !unsupported;
        changed := changed || unsupported;
      }
      if !changed {
        return Done(Pulled), t;
      }
      ok, t := Push(p, server, net, dig, t);
      return if !ok then Failed else if pulled then Done(Synced) else Done(Pushed), t;
    }
  }
}
