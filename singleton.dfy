/** The `MegaSuperUltraSingleton` metaclass and the `InformationManager`
    built with it (render.py). */
module Singleton {
  import opened Wrappers
  import opened Bridges

  /** An object built by the metaclass: its class and the arguments of the
      call that built it. */
  class Instance {
    const cls: string
    const args: seq<string>

    constructor (cls: string, args: seq<string>)
      ensures this.cls == cls && this.args == args
    {
      this.cls := cls;
      this.args := args;
    }
  }

  /** The metaclass's class-level dictionary from class to its one instance;
      `built` records, in order, every class whose constructor ran. */
  class InstanceCache {
    var instances: map<string, Instance>
    ghost var built: seq<string>

    /** Every cached instance belongs to its key, and each class was built
        exactly once, when it entered the cache. */
    ghost predicate Valid()
      reads this, set c | c in instances :: instances[c]
    {
      (forall c :: c in instances <==> c in built) &&
      (forall j, k :: 0 <= j < k < |built| ==> built[j] != built[k]) &&
      (forall c :: c in instances ==> instances[c].cls == c)
    }

    constructor ()
      ensures Valid() && instances == map[] && built == []
    {
      instances := map[];
      built := [];
    }

    /** `__call__`: the cached instance of `cls`, built with `args` only on
        the first call; later arguments are ignored. */
    method Call(cls: string, args: seq<string>) returns (obj: Instance)
      requires Valid()
      modifies this
      ensures Valid()
      ensures obj.cls == cls
      ensures cls in old(instances) ==>
        obj == old(instances)[cls] && instances == old(instances) && built == old(built)
      ensures cls !in old(instances) ==>
        fresh(obj) && obj.args == args && instances == old(instances)[cls := obj] && built == old(built) + [cls]
    {
      if cls !in instances {
        var made := new Instance(cls, args);
        instances := instances[cls := made];
        built := built + [cls];
      }
      obj := instances[cls];
    }
  }

  /** `parse_input` fails when the parser produced no zones or no
      connections. */
  datatype ManagerError = NoZonesOrConnections

  /** `InformationManager`: holds the zones and connections the renderer
      draws. */
  class InformationManager {
    var zones: seq<Zone>
    var connections: map<string, Adjacency>

    constructor ()
      ensures zones == [] && connections == map[]
    {
      zones := [];
      connections := map[];
    }

    /** `parse_input`, given what the input parser produced: the data is
        kept only when both the zones and the connections are non-empty. */
    method ParseInput(parsedZones: seq<Zone>, parsedConnections: map<string, Adjacency>) returns (r: Result<(), ManagerError>)
      modifies this
      ensures r.Ok? <==> parsedZones != [] && parsedConnections != map[]
      ensures r.Err? ==> r.error == NoZonesOrConnections && zones == old(zones) && connections == old(connections)
      ensures r.Ok? ==> zones == parsedZones && connections == parsedConnections
    {
      if parsedZones == [] || parsedConnections == map[] {
        return Err(NoZonesOrConnections);
      }
      zones := parsedZones;
      connections := parsedConnections;
      r := Ok(());
    }
  }

  /** Two calls for the same class give the same object, whatever their
      arguments, and its constructor runs once. */
  method TwoCalls(cache: InstanceCache, cls: string, first: seq<string>, second: seq<string>)
      returns (a: Instance, b: Instance)
    requires cache.Valid()
    modifies cache
    ensures a == b && |cache.built| <= |old(cache.built)| + 1
    ensures cls !in old(cache.instances) ==> a.args == first
  {
    a := cache.Call(cls, first);
    b := cache.Call(cls, second);
  }
}
