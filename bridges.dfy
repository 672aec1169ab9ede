/** Which bridges `Renderer._render_bridges` of render.py draws, and where.

    Zones are visited in the order of the zone mapping; a blocked zone is
    skipped; each neighbour in its adjacency list must be a zone (else the
    render fails), blocked neighbours are skipped, and the unordered pair of
    the two names is drawn once, the first time it is met, from the centre
    of the tile of the zone being visited to that of the neighbour. */
module Bridges {
  import opened Wrappers
  import opened PyArith

  /** A zone as the renderer reads it: its name (the key of the zone
      mapping), its coordinates and, when the zone has metadata, its zone
      type. */
  datatype Zone = Zone(name: string, coordinates: (int, int), zoneType: Option<string>)

  /** The adjacency entry of a zone: its neighbour list, when the entry has
      one. */
  datatype Adjacency = Adjacency(neighbours: Option<seq<string>>)

  /** `MissingMetadata` is the `AttributeError` of `{}.zone` for a zone
      without metadata, `MissingAdjacency` the `KeyError` of a zone without
      an adjacency entry, `UnknownNeighbour` the `RenderError` of a
      neighbour that is not a zone. */
  datatype RenderFailure = MissingMetadata(zone: string) | MissingAdjacency(zone: string) | UnknownNeighbour(neighbour: string)

  /** Tile width, half the tile's width and height, and the centring offset. */
  datatype Geometry = Geometry(tileW: int, halfW: int, halfH: int, offsetX: int, offsetY: int)

  /** One line drawn: the sorted pair of names and the two end points. */
  datatype Bridge = Bridge(pair: (string, string), start: (int, int), end: (int, int))

  /** The centre of the tile of a zone on the screen; the row is scaled by
      the tile's width, as for the column. */
  function Centre(g: Geometry, c: (int, int)): (int, int) {
    (c.0 * g.tileW + g.offsetX + g.halfW, c.1 * g.tileW + g.offsetY + g.halfH)
  }

  /** `connections[name].get("connections", [])`. */
  function NeighboursOf(a: Adjacency): seq<string> {
    if a.neighbours.Some? then a.neighbours.value else []
  }

  predicate IsBlocked(z: Zone) {
    z.zoneType == Some("blocked")
  }

  /** A zone with metadata that is not blocked. */
  predicate Open(z: Zone) {
    z.zoneType.Some? && !IsBlocked(z)
  }

  /** The keys of a mapping are distinct. */
  predicate UniqueNames(zones: seq<Zone>) {
    forall i, j :: 0 <= i < j < |zones| ==> zones[i].name != zones[j].name
  }

  /** `zones[name]`: the zone with that name, if any. */
  function Lookup(zones: seq<Zone>, name: string): (r: Option<Zone>)
    ensures r.Some? ==> r.value in zones && r.value.name == name
    ensures r.None? <==> forall i :: 0 <= i < |zones| ==> zones[i].name != name
  {
    if zones == [] then None
    else if zones[0].name == name then Some(zones[0])
    else Lookup(zones[1..], name)
  }

  lemma {:induction false} LookupUnique(zones: seq<Zone>, i: nat)
    requires UniqueNames(zones) && i < |zones|
    ensures Lookup(zones, zones[i].name) == Some(zones[i])
    decreases i
  {
    if i > 0 {
      assert zones[0].name != zones[i].name;
      assert UniqueNames(zones[1..]) by {
        forall a, b | 0 <= a < b < |zones[1..]|
          ensures zones[1..][a].name != zones[1..][b].name
        {
          assert zones[1..][a] == zones[a + 1] && zones[1..][b] == zones[b + 1];
        }
      }
      LookupUnique(zones[1..], i - 1);
    }
  }

  // ---------------------------------------------------------------------
  // Python's string order and `sorted([a, b])`

  /** `a <= b` on Python strings: lexicographic by code point. */
  predicate LexLe(a: string, b: string) {
    a == [] || (b != [] && (a[0] < b[0] || (a[0] == b[0] && LexLe(a[1..], b[1..]))))
  }

  lemma {:induction false} LexLeTotal(a: string, b: string)
    ensures LexLe(a, b) || LexLe(b, a)
  {
    if a != [] && b != [] && a[0] == b[0] {
      LexLeTotal(a[1..], b[1..]);
    }
  }

  lemma {:induction false} LexLeAntisymmetric(a: string, b: string)
    requires LexLe(a, b) && LexLe(b, a)
    ensures a == b
  {
    if a != [] && b != [] {
      LexLeAntisymmetric(a[1..], b[1..]);
      assert a == [a[0]] + a[1..] && b == [b[0]] + b[1..];
    }
  }

  /** `tuple(sorted([a, b]))`. */
  function SortedPair(a: string, b: string): (p: (string, string))
    ensures LexLe(p.0, p.1)
    ensures (p.0 == a && p.1 == b) || (p.0 == b && p.1 == a)
  {
    LexLeTotal(a, b);
    if LexLe(a, b) then (a, b) else (b, a)
  }

  /** The pair does not depend on which end is visited first, and it
      identifies the two names: a bridge is drawn once per unordered pair. */
  lemma SortedPairUnordered(a: string, b: string, c: string, d: string)
    ensures SortedPair(a, b) == SortedPair(b, a)
    ensures SortedPair(a, b) == SortedPair(c, d) <==> (a == c && b == d) || (a == d && b == c)
  {
    if LexLe(a, b) && LexLe(b, a) {
      LexLeAntisymmetric(a, b);
    }
    if LexLe(c, d) && LexLe(d, c) {
      LexLeAntisymmetric(c, d);
    }
    if (a == d && b == c) && LexLe(a, b) && LexLe(b, a) {
      LexLeAntisymmetric(a, b);
    }
  }

  // ---------------------------------------------------------------------
  // The two loops

  /** The inner loop: the neighbours `nbs` of the open zone `src`, with the
      pairs drawn so far and the bridges drawn so far. */
  function VisitNeighbours(g: Geometry, zones: seq<Zone>, src: Zone, nbs: seq<string>,
                           drawn: set<(string, string)>, acc: seq<Bridge>)
    : Result<(set<(string, string)>, seq<Bridge>), RenderFailure>
    decreases |nbs|
  {
    if nbs == [] then Ok((drawn, acc))
    else match Lookup(zones, nbs[0])
      case None => Err(UnknownNeighbour(nbs[0]))
      case Some(z) =>
        if z.zoneType.None? then Err(MissingMetadata(z.name))
        else if IsBlocked(z) then VisitNeighbours(g, zones, src, nbs[1..], drawn, acc)
        else
          var p := SortedPair(src.name, z.name);
          if p in drawn then VisitNeighbours(g, zones, src, nbs[1..], drawn, acc)
          else VisitNeighbours(g, zones, src, nbs[1..], drawn + {p},
                               acc + [Bridge(p, Centre(g, src.coordinates), Centre(g, z.coordinates))])
  }

  /** The outer loop, from the zone at index `i` on. */
  function VisitZones(g: Geometry, zones: seq<Zone>, conns: map<string, Adjacency>, i: nat,
                      drawn: set<(string, string)>, acc: seq<Bridge>): Result<seq<Bridge>, RenderFailure>
    requires i <= |zones|
    decreases |zones| - i
  {
    if i == |zones| then Ok(acc)
    else
      var z := zones[i];
      if z.zoneType.None? then Err(MissingMetadata(z.name))
      else if IsBlocked(z) then VisitZones(g, zones, conns, i + 1, drawn, acc)
      else if z.name !in conns then Err(MissingAdjacency(z.name))
      else match VisitNeighbours(g, zones, z, NeighboursOf(conns[z.name]), drawn, acc)
        case Err(e) => Err(e)
        case Ok((d, a)) => VisitZones(g, zones, conns, i + 1, d, a)
  }

  /** The bridges `_render_bridges` draws, in drawing order. */
  function DrawBridges(g: Geometry, zones: seq<Zone>, conns: map<string, Adjacency>): Result<seq<Bridge>, RenderFailure> {
    VisitZones(g, zones, conns, 0, {}, [])
  }

  // ---------------------------------------------------------------------
  // What is drawn

  /** Zone `src` lists `nb` as a neighbour, and neither is blocked. */
  predicate Edge(zones: seq<Zone>, conns: map<string, Adjacency>, src: Zone, nb: string) {
    src in zones && Open(src) && src.name in conns && nb in NeighboursOf(conns[src.name]) &&
    Lookup(zones, nb).Some? && Open(Lookup(zones, nb).value)
  }

  /** The bridge of an edge: its sorted pair, from the centre of the
      listing zone's tile to the centre of the neighbour's. */
  function BridgeOf(g: Geometry, zones: seq<Zone>, src: Zone, nb: string): Bridge
    requires Lookup(zones, nb).Some?
  {
    Bridge(SortedPair(src.name, nb), Centre(g, src.coordinates), Centre(g, Lookup(zones, nb).value.coordinates))
  }

  ghost predicate Sound(g: Geometry, zones: seq<Zone>, conns: map<string, Adjacency>, b: Bridge) {
    exists src, nb :: Edge(zones, conns, src, nb) && b == BridgeOf(g, zones, src, nb)
  }

  function PairsOf(bs: seq<Bridge>): set<(string, string)> {
    set i | 0 <= i < |bs| :: bs[i].pair
  }

  predicate DistinctPairs(bs: seq<Bridge>) {
    forall i, j :: 0 <= i < j < |bs| ==> bs[i].pair != bs[j].pair
  }

  /** What the drawn set and the bridge list keep: the set holds the pairs
      of the bridges, each pair once, and each bridge belongs to an edge. */
  ghost predicate Drawn(g: Geometry, zones: seq<Zone>, conns: map<string, Adjacency>,
                  drawn: set<(string, string)>, acc: seq<Bridge>) {
    drawn == PairsOf(acc) && DistinctPairs(acc) &&
    forall i :: 0 <= i < |acc| ==> Sound(g, zones, conns, acc[i])
  }

  lemma DrawnAppend(g: Geometry, zones: seq<Zone>, conns: map<string, Adjacency>,
                    drawn: set<(string, string)>, acc: seq<Bridge>, b: Bridge)
    requires Drawn(g, zones, conns, drawn, acc) && b.pair !in drawn && Sound(g, zones, conns, b)
    ensures Drawn(g, zones, conns, drawn + {b.pair}, acc + [b])
  {
    var acc' := acc + [b];
    assert forall i :: 0 <= i < |acc| ==> acc'[i] == acc[i];
    assert acc'[|acc|] == b;
    assert PairsOf(acc') == PairsOf(acc) + {b.pair} by {
      forall p | p in PairsOf(acc')
        ensures p in PairsOf(acc) + {b.pair}
      {
        var i :| 0 <= i < |acc'| && acc'[i].pair == p;
        if i < |acc| {
          assert acc[i].pair == p;
        }
      }
      forall p | p in PairsOf(acc)
        ensures p in PairsOf(acc')
      {
        var i :| 0 <= i < |acc| && acc[i].pair == p;
        assert acc'[i].pair == p;
      }
    }
    forall i, j | 0 <= i < j < |acc'|
      ensures acc'[i].pair != acc'[j].pair
    {
      if j == |acc| {
        assert acc[i].pair in PairsOf(acc);
      }
    }
  }

  /** The inner loop keeps `Drawn`, only adds bridges, and afterwards every
      open neighbour in `nbs` has its pair drawn. */
  lemma VisitNeighboursDraws(g: Geometry, zones: seq<Zone>, conns: map<string, Adjacency>,
      src: Zone, nbs: seq<string>, drawn: set<(string, string)>, acc: seq<Bridge>)
    requires src in zones && Open(src) && src.name in conns
    requires forall k :: 0 <= k < |nbs| ==> nbs[k] in NeighboursOf(conns[src.name])
    requires Drawn(g, zones, conns, drawn, acc)
    ensures var r := VisitNeighbours(g, zones, src, nbs, drawn, acc);
      r.Ok? ==> (Drawn(g, zones, conns, r.value.0, r.value.1) && drawn <= r.value.0 && acc <= r.value.1 &&
        forall k :: 0 <= k < |nbs| && Lookup(zones, nbs[k]).Some? && Open(Lookup(zones, nbs[k]).value) ==>
          SortedPair(src.name, nbs[k]) in r.value.0)
  {
    VisitNeighboursGrows(g, zones, src, nbs, drawn, acc);
    VisitNeighboursKeeps(g, zones, conns, src, nbs, drawn, acc);
    VisitNeighboursCovers(g, zones, src, nbs, drawn, acc);
  }

  /** The inner loop only adds pairs and bridges. */
  lemma {:induction false} VisitNeighboursGrows(g: Geometry, zones: seq<Zone>, src: Zone, nbs: seq<string>,
      drawn: set<(string, string)>, acc: seq<Bridge>)
    ensures var r := VisitNeighbours(g, zones, src, nbs, drawn, acc);
      r.Ok? ==> drawn <= r.value.0 && acc <= r.value.1
    decreases |nbs|
  {
    if nbs != [] {
      var z := Lookup(zones, nbs[0]);
      if z.Some? && z.value.zoneType.Some? {
        var p := SortedPair(src.name, nbs[0]);
        if IsBlocked(z.value) || p in drawn {
          VisitNeighboursGrows(g, zones, src, nbs[1..], drawn, acc);
        } else {
          var b := Bridge(p, Centre(g, src.coordinates), Centre(g, z.value.coordinates));
          VisitNeighboursGrows(g, zones, src, nbs[1..], drawn + {p}, acc + [b]);
        }
      }
    }
  }

  /** The inner loop keeps `Drawn`. */
  lemma {:induction false} VisitNeighboursKeeps(g: Geometry, zones: seq<Zone>, conns: map<string, Adjacency>,
      src: Zone, nbs: seq<string>, drawn: set<(string, string)>, acc: seq<Bridge>)
    requires src in zones && Open(src) && src.name in conns
    requires forall k :: 0 <= k < |nbs| ==> nbs[k] in NeighboursOf(conns[src.name])
    requires Drawn(g, zones, conns, drawn, acc)
    ensures var r := VisitNeighbours(g, zones, src, nbs, drawn, acc);
      r.Ok? ==> Drawn(g, zones, conns, r.value.0, r.value.1)
    decreases |nbs|
  {
    if nbs != [] {
      var rest := nbs[1..];
      assert forall k :: 0 <= k < |rest| ==> rest[k] == nbs[k + 1];
      var z := Lookup(zones, nbs[0]);
      if z.Some? && z.value.zoneType.Some? {
        var p := SortedPair(src.name, nbs[0]);
        if IsBlocked(z.value) || p in drawn {
          VisitNeighboursKeeps(g, zones, conns, src, rest, drawn, acc);
        } else {
          var b := BridgeOf(g, zones, src, nbs[0]);
          assert Edge(zones, conns, src, nbs[0]);
          DrawnAppend(g, zones, conns, drawn, acc, b);
          VisitNeighboursKeeps(g, zones, conns, src, rest, drawn + {p}, acc + [b]);
        }
      }
    }
  }

  /** After the inner loop, the pair of every open neighbour is drawn. */
  lemma {:induction false} VisitNeighboursCovers(g: Geometry, zones: seq<Zone>, src: Zone, nbs: seq<string>,
      drawn: set<(string, string)>, acc: seq<Bridge>)
    ensures var r := VisitNeighbours(g, zones, src, nbs, drawn, acc);
      r.Ok? ==> forall k :: 0 <= k < |nbs| && Lookup(zones, nbs[k]).Some? && Open(Lookup(zones, nbs[k]).value) ==>
        SortedPair(src.name, nbs[k]) in r.value.0
    decreases |nbs|
  {
    if nbs != [] {
      var r := VisitNeighbours(g, zones, src, nbs, drawn, acc);
      var rest := nbs[1..];
      var z := Lookup(zones, nbs[0]);
      if z.Some? && z.value.zoneType.Some? {
        var p := SortedPair(src.name, nbs[0]);
        var drawn', acc' := drawn, acc;
        if !IsBlocked(z.value) && p !in drawn {
          drawn', acc' := drawn + {p}, acc + [Bridge(p, Centre(g, src.coordinates), Centre(g, z.value.coordinates))];
        }
        assert r == VisitNeighbours(g, zones, src, rest, drawn', acc');
        VisitNeighboursGrows(g, zones, src, rest, drawn', acc');
        VisitNeighboursCovers(g, zones, src, rest, drawn', acc');
        if r.Ok? {
          forall k | 0 <= k < |nbs| && Lookup(zones, nbs[k]).Some? && Open(Lookup(zones, nbs[k]).value)
            ensures SortedPair(src.name, nbs[k]) in r.value.0
          {
            if k > 0 {
              assert nbs[k] == rest[k - 1];
            }
          }
        }
      }
    }
  }

  /** The outer loop keeps `Drawn`, and afterwards every edge from a zone
      at index `i` or later has its pair drawn. */
  lemma {:induction false} VisitZonesDraws(g: Geometry, zones: seq<Zone>, conns: map<string, Adjacency>,
      i: nat, drawn: set<(string, string)>, acc: seq<Bridge>)
    requires i <= |zones| && Drawn(g, zones, conns, drawn, acc)
    ensures var r := VisitZones(g, zones, conns, i, drawn, acc);
      r.Ok? ==> (Drawn(g, zones, conns, PairsOf(r.value), r.value) && drawn <= PairsOf(r.value) &&
        forall j, nb :: i <= j < |zones| && Edge(zones, conns, zones[j], nb) ==> SortedPair(zones[j].name, nb) in PairsOf(r.value))
    decreases |zones| - i
  {
    if i < |zones| {
      var z := zones[i];
      var r := VisitZones(g, zones, conns, i, drawn, acc);
      if z.zoneType.Some? && IsBlocked(z) {
        VisitZonesDraws(g, zones, conns, i + 1, drawn, acc);
      } else if z.zoneType.Some? && z.name in conns {
        var nbs := NeighboursOf(conns[z.name]);
        VisitNeighboursDraws(g, zones, conns, z, nbs, drawn, acc);
        var inner := VisitNeighbours(g, zones, z, nbs, drawn, acc);
        if inner.Ok? {
          VisitZonesDraws(g, zones, conns, i + 1, inner.value.0, inner.value.1);
          if r.Ok? {
            forall j, nb | i <= j < |zones| && Edge(zones, conns, zones[j], nb)
              ensures SortedPair(zones[j].name, nb) in PairsOf(r.value)
            {
              if j == i {
                var k :| 0 <= k < |nbs| && nbs[k] == nb;
              }
            }
          }
        }
      }
    }
  }

  /** When the render succeeds, every bridge belongs to an edge between two
      zones that are not blocked, no unordered pair is drawn twice, and every
      such edge is drawn. */
  lemma DrawBridgesExact(g: Geometry, zones: seq<Zone>, conns: map<string, Adjacency>)
    ensures var r := DrawBridges(g, zones, conns);
      r.Ok? ==> (DistinctPairs(r.value) && (forall i :: 0 <= i < |r.value| ==> Sound(g, zones, conns, r.value[i])) &&
        forall src, nb :: Edge(zones, conns, src, nb) ==> SortedPair(src.name, nb) in PairsOf(r.value))
  {
    assert PairsOf([]) == {};
    VisitZonesDraws(g, zones, conns, 0, {}, []);
    var r := DrawBridges(g, zones, conns);
    if r.Ok? {
      forall src, nb | Edge(zones, conns, src, nb)
        ensures SortedPair(src.name, nb) in PairsOf(r.value)
      {
        var j :| 0 <= j < |zones| && zones[j] == src;
      }
    }
  }

  /** Both ends of every bridge drawn are zones that are not blocked. */
  lemma NoBlockedEndpoint(g: Geometry, zones: seq<Zone>, conns: map<string, Adjacency>)
    requires UniqueNames(zones)
    ensures var r := DrawBridges(g, zones, conns);
      r.Ok? ==> forall i, name :: 0 <= i < |r.value| && (name == r.value[i].pair.0 || name == r.value[i].pair.1) ==>
        Lookup(zones, name).Some? && Open(Lookup(zones, name).value)
  {
    DrawBridgesExact(g, zones, conns);
    var r := DrawBridges(g, zones, conns);
    if r.Ok? {
      forall i, name | 0 <= i < |r.value| && (name == r.value[i].pair.0 || name == r.value[i].pair.1)
        ensures Lookup(zones, name).Some? && Open(Lookup(zones, name).value)
      {
        assert Sound(g, zones, conns, r.value[i]);
        var src, nb :| Edge(zones, conns, src, nb) && r.value[i] == BridgeOf(g, zones, src, nb);
        var j :| 0 <= j < |zones| && zones[j] == src;
        LookupUnique(zones, j);
      }
    }
  }

  // ---------------------------------------------------------------------
  // When the render fails

  /** A neighbour the renderer can look up: a zone with metadata. */
  predicate Known(zones: seq<Zone>, name: string) {
    Lookup(zones, name).Some? && Lookup(zones, name).value.zoneType.Some?
  }

  /** A zone the outer loop passes without failing: it has metadata and,
      unless blocked, an adjacency entry whose neighbours are all known. */
  predicate ZoneReady(zones: seq<Zone>, conns: map<string, Adjacency>, z: Zone) {
    z.zoneType.Some? &&
    (!IsBlocked(z) ==> z.name in conns && forall n :: n in NeighboursOf(conns[z.name]) ==> Known(zones, n))
  }

  lemma {:induction false} VisitNeighboursFails(g: Geometry, zones: seq<Zone>, src: Zone, nbs: seq<string>,
      drawn: set<(string, string)>, acc: seq<Bridge>)
    ensures var r := VisitNeighbours(g, zones, src, nbs, drawn, acc);
      (r.Ok? <==> forall k :: 0 <= k < |nbs| ==> Known(zones, nbs[k])) &&
      (r.Err? && r.error.UnknownNeighbour? ==> r.error.neighbour in nbs && Lookup(zones, r.error.neighbour).None?) &&
      (r.Err? && r.error.MissingMetadata? ==> exists z :: z in zones && z.name == r.error.zone && z.zoneType.None?) &&
      !(r.Err? && r.error.MissingAdjacency?)
    decreases |nbs|
  {
    if nbs != [] {
      var rest := nbs[1..];
      assert forall k :: 0 <= k < |rest| ==> rest[k] == nbs[k + 1];
      var z := Lookup(zones, nbs[0]);
      if z.Some? && z.value.zoneType.Some? {
        var p := SortedPair(src.name, z.value.name);
        if IsBlocked(z.value) || p in drawn {
          VisitNeighboursFails(g, zones, src, rest, drawn, acc);
        } else {
          VisitNeighboursFails(g, zones, src, rest, drawn + {p},
            acc + [Bridge(p, Centre(g, src.coordinates), Centre(g, z.value.coordinates))]);
        }
      }
    }
  }

  lemma {:induction false} VisitZonesFails(g: Geometry, zones: seq<Zone>, conns: map<string, Adjacency>,
      i: nat, drawn: set<(string, string)>, acc: seq<Bridge>)
    requires i <= |zones|
    ensures var r := VisitZones(g, zones, conns, i, drawn, acc);
      (r.Ok? <==> forall j :: i <= j < |zones| ==> ZoneReady(zones, conns, zones[j])) &&
      (r.Err? && r.error.UnknownNeighbour? ==>
        Lookup(zones, r.error.neighbour).None? &&
        exists j :: i <= j < |zones| && Open(zones[j]) && zones[j].name in conns &&
          r.error.neighbour in NeighboursOf(conns[zones[j].name])) &&
      (r.Err? && r.error.MissingAdjacency? ==>
        exists j :: i <= j < |zones| && Open(zones[j]) && zones[j].name == r.error.zone && zones[j].name !in conns) &&
      (r.Err? && r.error.MissingMetadata? ==> exists z :: z in zones && z.name == r.error.zone && z.zoneType.None?)
    decreases |zones| - i
  {
    if i < |zones| {
      var z := zones[i];
      if z.zoneType.Some? && IsBlocked(z) {
        VisitZonesFails(g, zones, conns, i + 1, drawn, acc);
      } else if z.zoneType.Some? && z.name in conns {
        var nbs := NeighboursOf(conns[z.name]);
        VisitNeighboursFails(g, zones, z, nbs, drawn, acc);
        var inner := VisitNeighbours(g, zones, z, nbs, drawn, acc);
        if inner.Ok? {
          VisitZonesFails(g, zones, conns, i + 1, inner.value.0, inner.value.1);
        }
        assert ZoneReady(zones, conns, z) <==> forall k :: 0 <= k < |nbs| ==> Known(zones, nbs[k]);
      }
    }
  }

  /** The render succeeds exactly when every zone is ready; a neighbour
      that is not a zone fails it with `UnknownNeighbour` naming it, whether
      or not other neighbours are blocked; a zone that is not blocked and
      has no adjacency entry fails it with `MissingAdjacency`; a zone without
      metadata fails it with `MissingMetadata`. */
  lemma DrawBridgesFails(g: Geometry, zones: seq<Zone>, conns: map<string, Adjacency>)
    ensures var r := DrawBridges(g, zones, conns);
      (r.Ok? <==> forall j :: 0 <= j < |zones| ==> ZoneReady(zones, conns, zones[j])) &&
      (r.Err? && r.error.UnknownNeighbour? ==>
        Lookup(zones, r.error.neighbour).None? &&
        exists j :: 0 <= j < |zones| && Open(zones[j]) && zones[j].name in conns &&
          r.error.neighbour in NeighboursOf(conns[zones[j].name])) &&
      (r.Err? && r.error.MissingAdjacency? ==>
        exists j :: 0 <= j < |zones| && Open(zones[j]) && zones[j].name == r.error.zone && zones[j].name !in conns) &&
      (r.Err? && r.error.MissingMetadata? ==> exists z :: z in zones && z.name == r.error.zone && z.zoneType.None?)
  {
    VisitZonesFails(g, zones, conns, 0, {}, []);
  }
}
