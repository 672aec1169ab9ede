/** `FileReader.parseinput` of parser.py: the lines of a map file become the
    drone count, the start and end hubs and the intermediate hubs.

    Each line is interpreted on its own (`Interpret`); the loop keeps the
    last drone count, the last start and end hub and, per hub name, the last
    declaration (`Apply`, folded over the lines by `ScanLines`); the record
    is assembled at the end (`Assemble`). `ParseInput` is the loop as the
    source writes it and is proved equal to `Parse`; `Reference` states the
    outcome declaratively and `ParseIsReference` proves the two agree. */
module MapParser {
  import opened Wrappers
  import opened Chars
  import opened PyInt
  import opened HubPattern

  /** The fields of the `Metadata` record, which are the metadata keys the
      parser accepts. */
  const MetadataFields: seq<string> := ["zone_type", "color", "max_drones"]

  datatype Metadata = Metadata(zoneType: Option<string>, color: Option<string>, maxDrones: Option<int>)

  /** One hub as the parser records it: coordinates, metadata key and
      metadata value. */
  datatype HubEntry = HubEntry(coordinates: (int, int), metaType: string, metaValue: string)

  /** The start or the end hub of the record: coordinates and metadata. */
  datatype Terminal = Terminal(coordinates: (int, int), metadata: Metadata)

  datatype Input = Input(nbDrones: int, startHub: Terminal, endHub: Terminal, hubs: map<string, HubEntry>)

  /** `InvalidInput` is the `ValueError` the source reports as "Invalid input";
      `NoMetadataType` the `FileReaderError` "No type_of_metadata found";
      `MissingKey` the `KeyError` of a value never read. */
  datatype ParseError = InvalidInput | NoMetadataType | MissingKey(key: string)

  datatype Role = Start | End

  /** What one line contributes. */
  datatype Effect =
    | Ignored
    | DroneCount(count: int)
    | Endpoint(role: Role, hub: HubEntry)
    | HubDeclared(name: string, hub: HubEntry)

  /** The values read so far. */
  datatype Scan = Scan(
    nbDrones: Option<int>,
    startHub: Option<HubEntry>,
    endHub: Option<HubEntry>,
    hubs: map<string, HubEntry>)

  const Initial := Scan(None, None, None, map[])

  // ---------------------------------------------------------------------
  // One line

  predicate StartsWith(line: string, prefix: string) {
    |prefix| <= |line| && line[..|prefix|] == prefix
  }

  /** `line[len("nb_drones: "):]`: everything after the eleventh character. */
  function DronesText(line: string): (t: string)
    ensures |line| >= 11 ==> line == line[..11] + t
    ensures |line| < 11 ==> t == []
  {
    if |line| >= 11 then line[11..] else []
  }

  /** The hub a declaration with groups `g` records: `int()` of the two
      digit groups, the metadata key and value. */
  function HubOf(g: Groups): (h: HubEntry)
    requires WellFormed(g)
    ensures ParseInt(g.x) == Some(h.coordinates.0) && ParseInt(g.y) == Some(h.coordinates.1)
    ensures h.metaType == g.key && h.metaValue == g.value
  {
    ParseDigits(g.x);
    ParseDigits(g.y);
    HubEntry((DigitsValue(g.x), DigitsValue(g.y)), g.key, g.value)
  }

  /** The hub a matched declaration describes, or the error for a metadata
      key that is not a field of `Metadata`. */
  function Declared(g: Groups): (r: Result<HubEntry, ParseError>)
    requires WellFormed(g)
    ensures r.Ok? <==> g.key in MetadataFields
    ensures r.Ok? ==> r.value.coordinates.0 >= 0 && r.value.coordinates.1 >= 0
    ensures r.Ok? ==> r.value.metaType == g.key && r.value.metaValue == g.value
    ensures r.Err? ==> r.error == NoMetadataType
  {
    if g.key in MetadataFields then Ok(HubOf(g))
    else Err(NoMetadataType)
  }

  /** The effect of one line of the map file. */
  function Interpret(line: string): (r: Result<Effect, ParseError>)
    ensures r.Err? ==> r.error == InvalidInput || r.error == NoMetadataType
    ensures r.Ok? && (r.value.Endpoint? || r.value.HubDeclared?) ==> HubValid(r.value.hub)
  {
    if StartsWith(line, "#") then Ok(Ignored)
    else if StartsWith(line, "nb_drones:") then
      match ParseInt(DronesText(line))
      case None => Err(InvalidInput)
      case Some(n) => Ok(DroneCount(n))
    else if StartsWith(line, "start_hub:") || StartsWith(line, "end_hub:") then
      var role := if StartsWith(line, "start_hub:") then Start else End;
      match Search(line)
      case None => Ok(Ignored)
      case Some(found) =>
        match Declared(found.groups)
        case Err(e) => Err(e)
        case Ok(hub) => Ok(Endpoint(role, hub))
    else if StartsWith(line, "hub: ") then
      match Search(line)
      case None => Ok(Ignored)
      case Some(found) =>
        match Declared(found.groups)
        case Err(e) => Err(e)
        case Ok(hub) => Ok(HubDeclared(found.groups.name, hub))
    else Ok(Ignored)
  }

  /** What every recorded hub satisfies: coordinates read from digits, and a
      metadata key that names a field of `Metadata`. */
  predicate HubValid(h: HubEntry) {
    h.coordinates.0 >= 0 && h.coordinates.1 >= 0 && h.metaType in MetadataFields
  }

  // ---------------------------------------------------------------------
  // The whole file

  /** One line's effect: only the value it names changes, and a hub
      declaration overwrites that hub's entry and no other. */
  function Apply(sc: Scan, e: Effect): (r: Scan)
    ensures r.nbDrones == if e.DroneCount? then Some(e.count) else sc.nbDrones
    ensures r.startHub == if e.Endpoint? && e.role == Start then Some(e.hub) else sc.startHub
    ensures r.endHub == if e.Endpoint? && e.role == End then Some(e.hub) else sc.endHub
    ensures !e.HubDeclared? ==> r.hubs == sc.hubs
    ensures e.HubDeclared? ==> (r.hubs.Keys == sc.hubs.Keys + {e.name} && r.hubs[e.name] == e.hub &&
      forall n :: n in sc.hubs && n != e.name ==> r.hubs[n] == sc.hubs[n])
  {
    match e
    case Ignored => sc
    case DroneCount(n) => sc.(nbDrones := Some(n))
    case Endpoint(Start, h) => sc.(startHub := Some(h))
    case Endpoint(End, h) => sc.(endHub := Some(h))
    case HubDeclared(name, h) => sc.(hubs := sc.hubs[name := h])
  }

  /** The lines read in order from `sc`; the first error ends the reading. */
  function ScanLines(sc: Scan, lines: seq<string>): (r: Result<Scan, ParseError>)
    ensures r.Err? ==> r.error == InvalidInput || r.error == NoMetadataType
    decreases |lines|
  {
    if lines == [] then Ok(sc)
    else match Interpret(lines[0])
      case Err(e) => Err(e)
      case Ok(e) => ScanLines(Apply(sc, e), lines[1..])
  }

  /** The metadata key becomes `zone_type` and the value `color`. */
  function TerminalOf(h: HubEntry): Terminal {
    Terminal(h.coordinates, Metadata(Some(h.metaType), Some(h.metaValue), None))
  }

  /** The record built from what was read; a value never read is a missing
      key, looked up in the order the source builds the record. */
  function Assemble(sc: Scan): (r: Result<Input, ParseError>)
    ensures r.Ok? <==> sc.nbDrones.Some? && sc.startHub.Some? && sc.endHub.Some?
    ensures r.Err? ==> r.error == MissingKey(
      if sc.nbDrones.None? then "nb_drones"
      else if sc.startHub.None? then "start_hub_coordinates"
      else "end_hub_coordinates")
    ensures r.Ok? ==> r.value.nbDrones == sc.nbDrones.value && r.value.hubs == sc.hubs
    ensures r.Ok? ==> r.value.startHub == TerminalOf(sc.startHub.value) && r.value.endHub == TerminalOf(sc.endHub.value)
  {
    if sc.nbDrones.None? then Err(MissingKey("nb_drones"))
    else if sc.startHub.None? then Err(MissingKey("start_hub_coordinates"))
    else if sc.endHub.None? then Err(MissingKey("end_hub_coordinates"))
    else Ok(Input(sc.nbDrones.value, TerminalOf(sc.startHub.value), TerminalOf(sc.endHub.value), sc.hubs))
  }

  /** A read fails only with "Invalid input", "No type_of_metadata found"
      or one of the three missing keys. */
  function Parse(lines: seq<string>): (r: Result<Input, ParseError>)
    ensures r.Err? ==> r.error in {InvalidInput, NoMetadataType, MissingKey("nb_drones"),
      MissingKey("start_hub_coordinates"), MissingKey("end_hub_coordinates")}
  {
    match ScanLines(Initial, lines)
    case Err(e) => Err(e)
    case Ok(sc) => Assemble(sc)
  }

  /** The prefixes the loop tests start with different characters, so at
      most one of its branches applies to a line. */
  lemma PrefixesExclusive(line: string)
    ensures StartsWith(line, "nb_drones:") ==> !StartsWith(line, "start_hub:") && !StartsWith(line, "end_hub:") && !StartsWith(line, "hub: ")
    ensures StartsWith(line, "start_hub:") || StartsWith(line, "end_hub:") ==> !StartsWith(line, "hub: ")
  {
    if StartsWith(line, "nb_drones:") {
      assert line[0] == line[..10][0] == 'n';
    }
    if StartsWith(line, "start_hub:") {
      assert line[0] == line[..10][0] == 's';
    }
    if StartsWith(line, "end_hub:") {
      assert line[0] == line[..8][0] == 'e';
    }
  }

  /** `FileReader.parseinput` on the lines of the file, as the source
      writes it: one pass that updates the values read so far, then the
      record. */
  method ParseInput(lines: seq<string>) returns (r: Result<Input, ParseError>)
    ensures r == Parse(lines)
  {
    var nbDrones: Option<int> := None;
    var startHub: Option<HubEntry> := None;
    var endHub: Option<HubEntry> := None;
    var hubs: map<string, HubEntry> := map[];
    var i := 0;
    while i < |lines|
      invariant 0 <= i <= |lines|
      invariant ScanLines(Scan(nbDrones, startHub, endHub, hubs), lines[i..]) == ScanLines(Initial, lines)
    {
      var line := lines[i];
      assert lines[i..][0] == line && lines[i..][1..] == lines[i + 1..];
      ghost var before := Scan(nbDrones, startHub, endHub, hubs);
      i := i + 1;
      PrefixesExclusive(line);
      if StartsWith(line, "#") {
        continue;
      }
      if StartsWith(line, "nb_drones:") {
        var n := ParseInt(DronesText(line));
        if n.None? {
          return Err(InvalidInput);
        }
        nbDrones := n;
      }
      if StartsWith(line, "start_hub:") || StartsWith(line, "end_hub:") {
        var isStart := StartsWith(line, "start_hub:");
        var found := Search(line);
        if found.Some? {
          var g := found.value.groups;
          if g.key !in MetadataFields {
            return Err(NoMetadataType);
          }
          var hub := HubOf(g);
          if isStart {
            startHub := Some(hub);
          } else {
            endHub := Some(hub);
          }
        }
      }
      if StartsWith(line, "hub: ") {
        var found := Search(line);
        if found.Some? {
          var g := found.value.groups;
          if g.key !in MetadataFields {
            return Err(NoMetadataType);
          }
          hubs := hubs[g.name := HubOf(g)];
        }
      }
      assert Interpret(line).Ok? && Apply(before, Interpret(line).value) == Scan(nbDrones, startHub, endHub, hubs);
    }
    if nbDrones.None? {
      return Err(MissingKey("nb_drones"));
    }
    if startHub.None? {
      return Err(MissingKey("start_hub_coordinates"));
    }
    if endHub.None? {
      return Err(MissingKey("end_hub_coordinates"));
    }
    r := Ok(Input(nbDrones.value, TerminalOf(startHub.value), TerminalOf(endHub.value), hubs));
  }
}
