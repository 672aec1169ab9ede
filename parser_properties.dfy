/** What `FileReader.parseinput` promises, proved about `MapParser.Parse`:
    its outcome in closed form (`Reference`), the lines it ignores, the
    invariant every parsed record keeps, and what single lines read as. */
module MapParserProperties {
  import opened Wrappers
  import opened Chars
  import opened PyInt
  import opened HubPattern
  import opened MapParser

  // ---------------------------------------------------------------------
  // The outcome in closed form

  type Outcome = Result<Effect, ParseError>

  /** The interpretation of every line. */
  function Outcomes(lines: seq<string>): (rs: seq<Outcome>)
    ensures |rs| == |lines| && forall k :: 0 <= k < |lines| ==> rs[k] == Interpret(lines[k])
  {
    seq(|lines|, k requires 0 <= k < |lines| => Interpret(lines[k]))
  }

  /** `ScanLines` over the interpretations instead of the lines. */
  function Fold(sc: Scan, rs: seq<Outcome>): Result<Scan, ParseError>
    decreases |rs|
  {
    if rs == [] then Ok(sc)
    else match rs[0]
      case Err(e) => Err(e)
      case Ok(e) => Fold(Apply(sc, e), rs[1..])
  }

  lemma {:induction false} ScanLinesIsFold(sc: Scan, lines: seq<string>)
    ensures ScanLines(sc, lines) == Fold(sc, Outcomes(lines))
    decreases |lines|
  {
    if lines != [] {
      var rs := Outcomes(lines);
      assert rs[0] == Interpret(lines[0]) && rs[1..] == Outcomes(lines[1..]);
      if rs[0].Ok? {
        ScanLinesIsFold(Apply(sc, rs[0].value), lines[1..]);
      }
    }
  }

  /** The error of the first line that raises one. */
  function FirstError(rs: seq<Outcome>): Option<ParseError> {
    if rs == [] then None
    else if rs[0].Err? then Some(rs[0].error)
    else FirstError(rs[1..])
  }

  /** The later value where there is one, the earlier otherwise. */
  function Latest<T>(later: Option<T>, earlier: Option<T>): Option<T> {
    if later.Some? then later else earlier
  }

  function CountIn(r: Outcome): Option<int> {
    if r.Ok? && r.value.DroneCount? then Some(r.value.count) else None
  }

  function TerminalIn(r: Outcome, role: Role): Option<HubEntry> {
    if r.Ok? && r.value.Endpoint? && r.value.role == role then Some(r.value.hub) else None
  }

  function DeclarationIn(r: Outcome, name: string): Option<HubEntry> {
    if r.Ok? && r.value.HubDeclared? && r.value.name == name then Some(r.value.hub) else None
  }

  /** The drone count of the last line that sets one. */
  function LastCount(rs: seq<Outcome>): Option<int> {
    if rs == [] then None else Latest(LastCount(rs[1..]), CountIn(rs[0]))
  }

  /** The hub of the last line that declares the start (or end) hub. */
  function LastTerminal(rs: seq<Outcome>, role: Role): Option<HubEntry> {
    if rs == [] then None else Latest(LastTerminal(rs[1..], role), TerminalIn(rs[0], role))
  }

  /** The hub of the last line that declares a hub called `name`. */
  function LastDeclaration(rs: seq<Outcome>, name: string): Option<HubEntry> {
    if rs == [] then None else Latest(LastDeclaration(rs[1..], name), DeclarationIn(rs[0], name))
  }

  /** The names of the hubs the lines declare. */
  function DeclaredNames(rs: seq<Outcome>): set<string> {
    if rs == [] then {}
    else DeclaredNames(rs[1..]) + (if rs[0].Ok? && rs[0].value.HubDeclared? then {rs[0].value.name} else {})
  }

  lemma {:induction false} DeclaredNamesExact(rs: seq<Outcome>, name: string)
    ensures name in DeclaredNames(rs) <==> LastDeclaration(rs, name).Some?
    decreases |rs|
  {
    if rs != [] {
      DeclaredNamesExact(rs[1..], name);
    }
  }

  /** Every declared hub name with its last declaration. */
  function Declarations(rs: seq<Outcome>): (m: map<string, HubEntry>)
    ensures forall name :: name in m <==> LastDeclaration(rs, name).Some?
    ensures forall name :: name in m ==> Some(m[name]) == LastDeclaration(rs, name)
  {
    forall name ensures name in DeclaredNames(rs) <==> LastDeclaration(rs, name).Some? {
      DeclaredNamesExact(rs, name);
    }
    map name | name in DeclaredNames(rs) :: LastDeclaration(rs, name).value
  }

  /** The outcome of a parse, stated without the loop: the first error if
      a line raises one, else the last value read for each key, the first
      missing key in the order the record is built. */
  function Reference(lines: seq<string>): Result<Input, ParseError> {
    var rs := Outcomes(lines);
    if FirstError(rs).Some? then Err(FirstError(rs).value)
    else if LastCount(rs).None? then Err(MissingKey("nb_drones"))
    else if LastTerminal(rs, Start).None? then Err(MissingKey("start_hub_coordinates"))
    else if LastTerminal(rs, End).None? then Err(MissingKey("end_hub_coordinates"))
    else Ok(Input(LastCount(rs).value, TerminalOf(LastTerminal(rs, Start).value),
                  TerminalOf(LastTerminal(rs, End).value), Declarations(rs)))
  }

  /** The values that reading from `sc` leaves when no line raises. */
  function After(sc: Scan, rs: seq<Outcome>): Scan {
    Scan(Latest(LastCount(rs), sc.nbDrones),
         Latest(LastTerminal(rs, Start), sc.startHub),
         Latest(LastTerminal(rs, End), sc.endHub),
         sc.hubs + Declarations(rs))
  }

  lemma AfterStep(sc: Scan, rs: seq<Outcome>)
    requires rs != [] && rs[0].Ok?
    ensures After(Apply(sc, rs[0].value), rs[1..]) == After(sc, rs)
  {
    HubsStep(sc, rs);
    assert LastCount(rs) == Latest(LastCount(rs[1..]), CountIn(rs[0]));
    assert LastTerminal(rs, Start) == Latest(LastTerminal(rs[1..], Start), TerminalIn(rs[0], Start));
    assert LastTerminal(rs, End) == Latest(LastTerminal(rs[1..], End), TerminalIn(rs[0], End));
  }

  lemma HubsStep(sc: Scan, rs: seq<Outcome>)
    requires rs != [] && rs[0].Ok?
    ensures Apply(sc, rs[0].value).hubs + Declarations(rs[1..]) == sc.hubs + Declarations(rs)
  {
    var m1 := Apply(sc, rs[0].value).hubs + Declarations(rs[1..]);
    var m2 := sc.hubs + Declarations(rs);
    forall name
      ensures name in m1 <==> name in m2
      ensures name in m1 ==> m1[name] == m2[name]
    {
      HubsStepAt(sc, rs, name);
    }
    SameEntries(m1, m2);
  }

  lemma SameEntries(m1: map<string, HubEntry>, m2: map<string, HubEntry>)
    requires forall name :: name in m1 <==> name in m2
    requires forall name :: name in m1 ==> m1[name] == m2[name]
    ensures m1 == m2
  {
  }

  /** One line's effect on the hub called `name`, then the rest of the
      lines, leave what all the lines leave. */
  lemma HubsStepAt(sc: Scan, rs: seq<Outcome>, name: string)
    requires rs != [] && rs[0].Ok?
    ensures var m1 := Apply(sc, rs[0].value).hubs + Declarations(rs[1..]);
      var m2 := sc.hubs + Declarations(rs);
      (name in m1 <==> name in m2) && (name in m1 ==> m1[name] == m2[name])
  {
    var later := LastDeclaration(rs[1..], name);
    var here := DeclarationIn(rs[0], name);
    assert LastDeclaration(rs, name) == Latest(later, here);
    var hubs := Apply(sc, rs[0].value).hubs;
    if here.Some? {
      assert name in hubs && hubs[name] == here.value;
    } else {
      assert name in hubs <==> name in sc.hubs;
      assert name in hubs ==> hubs[name] == sc.hubs[name];
    }
  }

  lemma {:induction false} FoldClosedForm(sc: Scan, rs: seq<Outcome>)
    ensures FirstError(rs).Some? ==> Fold(sc, rs) == Err(FirstError(rs).value)
    ensures FirstError(rs).None? ==> Fold(sc, rs) == Ok(After(sc, rs))
    decreases |rs|
  {
    if rs == [] {
      assert sc.hubs + Declarations(rs) == sc.hubs;
    } else if rs[0].Ok? {
      FoldClosedForm(Apply(sc, rs[0].value), rs[1..]);
      if FirstError(rs).None? {
        AfterStep(sc, rs);
      }
    }
  }

  /** `Parse` has the outcome `Reference` states. */
  lemma ParseIsReference(lines: seq<string>)
    ensures Parse(lines) == Reference(lines)
  {
    ScanLinesIsFold(Initial, lines);
    FoldClosedForm(Initial, Outcomes(lines));
    assert map[] + Declarations(Outcomes(lines)) == Declarations(Outcomes(lines));
  }

  // ---------------------------------------------------------------------
  // Consequences

  lemma OutcomesAppend(a: seq<string>, b: seq<string>)
    ensures Outcomes(a + b) == Outcomes(a) + Outcomes(b)
  {
    assert forall k :: 0 <= k < |b| ==> (a + b)[|a| + k] == b[k];
  }

  lemma {:induction false} FoldSkip(sc: Scan, x: seq<Outcome>, y: seq<Outcome>)
    ensures Fold(sc, x + [Ok(Ignored)] + y) == Fold(sc, x + y)
    decreases |x|
  {
    if x == [] {
      assert ([Ok(Ignored)] + y)[1..] == y;
      assert x + [Ok(Ignored)] + y == [Ok(Ignored)] + y && x + y == y;
    } else {
      assert (x + [Ok(Ignored)] + y)[0] == x[0] && (x + y)[0] == x[0];
      assert (x + [Ok(Ignored)] + y)[1..] == x[1..] + [Ok(Ignored)] + y;
      assert (x + y)[1..] == x[1..] + y;
      if x[0].Ok? {
        FoldSkip(Apply(sc, x[0].value), x[1..], y);
      }
    }
  }

  /** A line without effect can be removed without changing the outcome. */
  lemma IgnoredLineIrrelevant(a: seq<string>, line: string, b: seq<string>)
    requires Interpret(line) == Ok(Ignored)
    ensures Parse(a + [line] + b) == Parse(a + b)
  {
    OutcomesAppend(a + [line], b);
    OutcomesAppend(a, [line]);
    OutcomesAppend(a, b);
    assert Outcomes([line]) == [Ok(Ignored)];
    ScanLinesIsFold(Initial, a + [line] + b);
    ScanLinesIsFold(Initial, a + b);
    FoldSkip(Initial, Outcomes(a), Outcomes(b));
  }

  /** Comment lines do not change the outcome. */
  lemma CommentIrrelevant(a: seq<string>, line: string, b: seq<string>)
    requires StartsWith(line, "#")
    ensures Parse(a + [line] + b) == Parse(a + b)
  {
    IgnoredLineIrrelevant(a, line, b);
  }

  /** Connection lines are not read by this parser: they do not change the
      outcome either. */
  lemma ConnectionIrrelevant(a: seq<string>, line: string, b: seq<string>)
    requires StartsWith(line, "connection:")
    ensures Parse(a + [line] + b) == Parse(a + b)
  {
    StartsWithFirst(line, "connection:");
    StartsWithFirst(line, "nb_drones:");
    StartsWithFirst(line, "start_hub:");
    StartsWithFirst(line, "end_hub:");
    StartsWithFirst(line, "hub: ");
    UnknownLineIrrelevant(a, line, b);
  }

  lemma StartsWithFirst(line: string, prefix: string)
    requires |prefix| > 0
    ensures StartsWith(line, prefix) ==> line[0] == prefix[0]
  {
    if StartsWith(line, prefix) {
      assert line[..|prefix|][0] == line[0];
    }
  }

  /** A line that starts with none of the keywords `nb_drones:`,
      `start_hub:`, `end_hub:` and `hub: ` has no effect. */
  lemma UnknownLineIgnored(line: string)
    requires !StartsWith(line, "nb_drones:") && !StartsWith(line, "start_hub:")
    requires !StartsWith(line, "end_hub:") && !StartsWith(line, "hub: ")
    ensures Interpret(line) == Ok(Ignored)
  {
  }

  /** Such a line can be removed without changing the outcome. */
  lemma UnknownLineIrrelevant(a: seq<string>, line: string, b: seq<string>)
    requires !StartsWith(line, "nb_drones:") && !StartsWith(line, "start_hub:")
    requires !StartsWith(line, "end_hub:") && !StartsWith(line, "hub: ")
    ensures Parse(a + [line] + b) == Parse(a + b)
  {
    UnknownLineIgnored(line);
    IgnoredLineIrrelevant(a, line, b);
  }

  /** `hub:` must be followed by a space: `hub:x 1 2 [color=red]` is not a
      declaration, and the line changes nothing. */
  lemma HubWithoutSpaceIrrelevant(a: seq<string>, c: char, rest: string, b: seq<string>)
    requires c != ' '
    ensures Parse(a + ["hub:" + ([c] + rest)] + b) == Parse(a + b)
  {
    var line := "hub:" + ([c] + rest);
    assert line[4] == c;
    StartsWithFirst(line, "nb_drones:");
    StartsWithFirst(line, "start_hub:");
    StartsWithFirst(line, "end_hub:");
    UnknownLineIrrelevant(a, line, b);
  }

  lemma {:induction false} FirstErrorAt(rs: seq<Outcome>, k: nat)
    requires k < |rs| && rs[k].Err?
    requires forall j :: 0 <= j < k ==> rs[j].Ok?
    ensures FirstError(rs) == Some(rs[k].error)
    decreases k
  {
    if k > 0 {
      FirstErrorAt(rs[1..], k - 1);
    }
  }

  /** The first line that raises decides the outcome, whatever follows. */
  lemma FirstErrorWins(lines: seq<string>, k: nat)
    requires k < |lines| && Interpret(lines[k]).Err?
    requires forall j :: 0 <= j < k ==> Interpret(lines[j]).Ok?
    ensures Parse(lines) == Err(Interpret(lines[k]).error)
  {
    ParseIsReference(lines);
    FirstErrorAt(Outcomes(lines), k);
  }

  lemma {:induction false} LastDeclarationAt(rs: seq<Outcome>, k: nat, name: string, h: HubEntry)
    requires k < |rs| && rs[k] == Ok(HubDeclared(name, h))
    requires forall j :: k < j < |rs| ==> DeclarationIn(rs[j], name).None?
    ensures LastDeclaration(rs, name) == Some(h)
    decreases k
  {
    if k > 0 {
      LastDeclarationAt(rs[1..], k - 1, name, h);
    } else {
      LastDeclarationNone(rs[1..], name);
    }
  }

  lemma {:induction false} LastDeclarationNone(rs: seq<Outcome>, name: string)
    requires forall j :: 0 <= j < |rs| ==> DeclarationIn(rs[j], name).None?
    ensures LastDeclaration(rs, name).None?
    decreases |rs|
  {
    if rs != [] {
      LastDeclarationNone(rs[1..], name);
    }
  }

  /** A hub declared twice keeps its last declaration: the parsed hub of a
      name is the one of the last line that declares that name. */
  lemma LastDeclarationWins(lines: seq<string>, k: nat, name: string, h: HubEntry)
    requires Parse(lines).Ok?
    requires k < |lines| && Interpret(lines[k]) == Ok(HubDeclared(name, h))
    requires forall j :: k < j < |lines| ==> DeclarationIn(Interpret(lines[j]), name).None?
    ensures name in Parse(lines).value.hubs && Parse(lines).value.hubs[name] == h
  {
    LastDeclarationAt(Outcomes(lines), k, name, h);
    ParseIsReference(lines);
    ReferenceHubs(lines);
  }

  lemma ReferenceHubs(lines: seq<string>)
    requires Reference(lines).Ok?
    ensures Reference(lines).value.hubs == Declarations(Outcomes(lines))
  {
  }

  /** What every parsed record satisfies. */
  predicate InputValid(inp: Input) {
    TerminalValid(inp.startHub) && TerminalValid(inp.endHub) &&
    forall name :: name in inp.hubs ==> HubValid(inp.hubs[name])
  }

  /** Coordinates read from digits, the metadata key (a field name) in
      `zone_type`, the value in `color`, no `max_drones`. */
  predicate TerminalValid(t: Terminal) {
    t.coordinates.0 >= 0 && t.coordinates.1 >= 0 &&
    t.metadata.zoneType.Some? && t.metadata.zoneType.value in MetadataFields &&
    t.metadata.color.Some? && t.metadata.maxDrones.None?
  }

  predicate ScanValid(sc: Scan) {
    (sc.startHub.Some? ==> HubValid(sc.startHub.value)) &&
    (sc.endHub.Some? ==> HubValid(sc.endHub.value)) &&
    forall name :: name in sc.hubs ==> HubValid(sc.hubs[name])
  }

  lemma {:induction false} ScanLinesKeepsValid(sc: Scan, lines: seq<string>)
    requires ScanValid(sc)
    ensures ScanLines(sc, lines).Ok? ==> ScanValid(ScanLines(sc, lines).value)
    decreases |lines|
  {
    if lines != [] && Interpret(lines[0]).Ok? {
      ScanLinesKeepsValid(Apply(sc, Interpret(lines[0]).value), lines[1..]);
    }
  }

  /** Every record `Parse` returns has non-negative coordinates and metadata
      keys that name fields of `Metadata`. */
  lemma ParseValid(lines: seq<string>)
    ensures Parse(lines).Ok? ==> InputValid(Parse(lines).value)
  {
    ScanLinesKeepsValid(Initial, lines);
  }

  // ---------------------------------------------------------------------
  // Single lines

  lemma PrefixOf(prefix: string, rest: string)
    ensures StartsWith(prefix + rest, prefix)
  {
    assert (prefix + rest)[..|prefix|] == prefix;
  }

  /** `nb_drones: ` followed by a whole number, with any whitespace around
      it (the line break included), sets the drone count to that number,
      negative numbers included. */
  lemma DronesLine(w1: string, n: int, w2: string)
    requires AllIn(w1, Space) && AllIn(w2, Space)
    ensures Interpret("nb_drones: " + (w1 + ShowInt(n) + w2)) == Ok(DroneCount(n))
  {
    var line := "nb_drones: " + (w1 + ShowInt(n) + w2);
    PrefixOf("nb_drones:", " " + (w1 + ShowInt(n) + w2));
    assert line == "nb_drones:" + (" " + (w1 + ShowInt(n) + w2));
    StartsWithFirst(line, "#");
    assert DronesText(line) == w1 + ShowInt(n) + w2;
    ParseShowInt(w1, n, w2);
  }

  /** The count is read from the twelfth character on, whether or not a
      space follows the colon: without one, the first character after the
      colon is dropped. */
  lemma DronesWithoutSpace(c: char, rest: string)
    ensures Interpret("nb_drones:" + ([c] + rest)) ==
      if ParseInt(rest).Some? then Ok(DroneCount(ParseInt(rest).value)) else Err(InvalidInput)
  {
    var line := "nb_drones:" + ([c] + rest);
    PrefixOf("nb_drones:", [c] + rest);
    StartsWithFirst(line, "#");
    assert DronesText(line) == rest;
  }

  /** With no space after the colon, the character after it is lost:
      `nb_drones:12` sets the drone count to 2 (`c` = `1`, `n` = 2). */
  lemma DronesFirstDigitLost(c: char, w1: string, n: int, w2: string)
    requires AllIn(w1, Space) && AllIn(w2, Space)
    ensures Interpret("nb_drones:" + ([c] + (w1 + ShowInt(n) + w2))) == Ok(DroneCount(n))
  {
    DronesWithoutSpace(c, w1 + ShowInt(n) + w2);
    ParseShowInt(w1, n, w2);
  }

  /** `hub: <name> <x> <y> [<key>=<value>]`, whatever follows it, declares
      the hub `<name>` when `<key>` is a field of `Metadata` and raises
      otherwise. */
  lemma HubLine(g: Groups, w1: string, w2: string, w3: string, rest: string)
    requires WellFormed(g) && Gaps(w1, w2, w3)
    ensures Interpret("hub: " + (Layout(g, w1, w2, w3) + rest)) ==
      if g.key in MetadataFields then Ok(HubDeclared(g.name, HubOf(g))) else Err(NoMetadataType)
  {
    var tail := Layout(g, w1, w2, w3) + rest;
    var line := "hub: " + tail;
    PrefixOf("hub: ", tail);
    assert line == "hub" + ":" + " " + tail;
    SearchDeclaration("hub", " ", g, w1, w2, w3, rest);
    StartsWithFirst(line, "#");
    StartsWithFirst(line, "nb_drones:");
    StartsWithFirst(line, "start_hub:");
    StartsWithFirst(line, "end_hub:");
  }

  /** `start_hub:` or `end_hub:`, optional whitespace and a hub declaration
      set the start or end hub (the hub's name is not kept) when the
      metadata key is a field of `Metadata`, and raise otherwise. */
  lemma TerminalLine(role: Role, sp: string, g: Groups, w1: string, w2: string, w3: string, rest: string)
    requires AllIn(sp, Space) && WellFormed(g) && Gaps(w1, w2, w3)
    ensures var kw := if role == Start then "start_hub" else "end_hub";
      Interpret(kw + ":" + sp + (Layout(g, w1, w2, w3) + rest)) ==
      if g.key in MetadataFields then Ok(Endpoint(role, HubOf(g))) else Err(NoMetadataType)
  {
    if role == Start {
      KeywordLine("start_hub", role, sp, g, w1, w2, w3, rest);
    } else {
      KeywordLine("end_hub", role, sp, g, w1, w2, w3, rest);
    }
  }

  /** `TerminalLine` for one keyword. */
  lemma KeywordLine(kw: string, role: Role, sp: string, g: Groups, w1: string, w2: string, w3: string, rest: string)
    requires kw == if role == Start then "start_hub" else "end_hub"
    requires AllIn(sp, Space) && WellFormed(g) && Gaps(w1, w2, w3)
    ensures Interpret(kw + ":" + sp + (Layout(g, w1, w2, w3) + rest)) ==
      if g.key in MetadataFields then Ok(Endpoint(role, HubOf(g))) else Err(NoMetadataType)
  {
    var line := kw + ":" + sp + (Layout(g, w1, w2, w3) + rest);
    KeywordsAreWords();
    DeclarationFound(kw, sp, g, w1, w2, w3, rest);
    KeywordBranch(line, kw, role);
    EndpointEffect(line, role, Found(|kw + ":" + sp|, g));
  }

  lemma KeywordsAreWords()
    ensures IsRun("start_hub", Word) && IsRun("end_hub", Word) && IsRun("hub", Word)
  {
  }

  /** After `kw:` and whitespace, the pattern finds the declaration that
      follows. */
  lemma DeclarationFound(kw: string, sp: string, g: Groups, w1: string, w2: string, w3: string, rest: string)
    requires IsRun(kw, Word) && AllIn(sp, Space) && WellFormed(g) && Gaps(w1, w2, w3)
    ensures var line := kw + ":" + sp + (Layout(g, w1, w2, w3) + rest);
      StartsWith(line, kw + ":") && Search(line) == Some(Found(|kw + ":" + sp|, g))
  {
    var tail := sp + (Layout(g, w1, w2, w3) + rest);
    assert kw + ":" + sp + (Layout(g, w1, w2, w3) + rest) == (kw + ":") + tail;
    PrefixOf(kw + ":", tail);
    SearchDeclaration(kw, sp, g, w1, w2, w3, rest);
  }

  /** A line starting with `start_hub:` or `end_hub:` takes the branch of
      its role. */
  lemma KeywordBranch(line: string, kw: string, role: Role)
    requires kw == if role == Start then "start_hub" else "end_hub"
    requires StartsWith(line, kw + ":")
    ensures !StartsWith(line, "#") && !StartsWith(line, "nb_drones:")
    ensures role == Start ==> StartsWith(line, "start_hub:")
    ensures role == End ==> !StartsWith(line, "start_hub:") && StartsWith(line, "end_hub:")
  {
    StartsWithFirst(line, kw + ":");
    StartsWithFirst(line, "#");
    StartsWithFirst(line, "nb_drones:");
    StartsWithFirst(line, "start_hub:");
  }

  /** A line the keyword chain sends to the `role` branch, on which the
      pattern finds `found`. */
  lemma EndpointEffect(line: string, role: Role, found: Found)
    requires !StartsWith(line, "#") && !StartsWith(line, "nb_drones:")
    requires role == Start ==> StartsWith(line, "start_hub:")
    requires role == End ==> !StartsWith(line, "start_hub:") && StartsWith(line, "end_hub:")
    requires Search(line) == Some(found)
    ensures WellFormed(found.groups)
    ensures Interpret(line) ==
      if found.groups.key in MetadataFields then Ok(Endpoint(role, HubOf(found.groups))) else Err(NoMetadataType)
  {
  }

  /** The key `zone` is not a field of `Metadata`: a declaration such as
      `hub: c 1 1 [zone=blocked]` raises. */
  lemma ZoneKeyRejected(g: Groups, w1: string, w2: string, w3: string, rest: string)
    requires WellFormed(g) && Gaps(w1, w2, w3) && g.key == "zone"
    ensures Interpret("hub: " + (Layout(g, w1, w2, w3) + rest)) == Err(NoMetadataType)
  {
    ZoneNotAField();
    HubLine(g, w1, w2, w3, rest);
  }

  lemma ZoneNotAField()
    ensures "zone" !in MetadataFields
  {
    assert "zone" != MetadataFields[0] && "zone" != MetadataFields[1] && "zone" != MetadataFields[2] by {
      assert |"zone"| != |MetadataFields[0]| && |"zone"| != |MetadataFields[2]|;
      assert "zone"[0] != MetadataFields[1][0];
    }
  }

  /** A declaration line without a bracketed metadata block declares
      nothing: the pattern requires the block. */
  lemma DeclarationWithoutBracketIgnored(line: string)
    requires StartsWith(line, "hub: ") || StartsWith(line, "start_hub:") || StartsWith(line, "end_hub:")
    requires forall m :: 0 <= m < |line| ==> line[m] != '['
    ensures Interpret(line) == Ok(Ignored)
  {
    NoBracketNoMatch(line);
    StartsWithFirst(line, "#");
    StartsWithFirst(line, "nb_drones:");
    StartsWithFirst(line, "hub: ");
    StartsWithFirst(line, "start_hub:");
    StartsWithFirst(line, "end_hub:");
  }

  /** A declaration line in which no `[<key>=<value>]` block of two word
      runs occurs declares nothing and raises nothing. */
  lemma DeclarationWithoutBlockIgnored(line: string)
    requires StartsWith(line, "hub: ") || StartsWith(line, "start_hub:") || StartsWith(line, "end_hub:")
    requires forall m, key, value :: IsRun(key, Word) && IsRun(value, Word) ==> !OccursAt(line, m, Block(key, value))
    ensures Interpret(line) == Ok(Ignored)
  {
    var found := Search(line);
    if found.Some? {
      MatchNeedsBlock(line, found.value.start);
    }
    StartsWithFirst(line, "#");
    StartsWithFirst(line, "nb_drones:");
    StartsWithFirst(line, "hub: ");
    StartsWithFirst(line, "start_hub:");
    StartsWithFirst(line, "end_hub:");
  }

  /** A declaration line on which the whole layout of the pattern (name,
      two digit runs, block) occurs nowhere declares nothing and raises
      nothing: negative coordinates, a second block or a value with `-`
      leave the line ignored. */
  lemma DeclarationWithoutLayoutIgnored(line: string)
    requires StartsWith(line, "hub: ") || StartsWith(line, "start_hub:") || StartsWith(line, "end_hub:")
    requires forall m: nat, g, w1, w2, w3 :: WellFormed(g) && Gaps(w1, w2, w3) ==> !OccursAt(line, m, Layout(g, w1, w2, w3))
    ensures Interpret(line) == Ok(Ignored)
  {
    var found := Search(line);
    if found.Some? {
      MatchAtSound(line, found.value.start);
    }
    StartsWithFirst(line, "#");
    StartsWithFirst(line, "nb_drones:");
    StartsWithFirst(line, "hub: ");
    StartsWithFirst(line, "start_hub:");
    StartsWithFirst(line, "end_hub:");
  }
}
