/** The hub-line pattern of parser.py:53,
      (\w+)\s+(\d+)\s+(\d+)\s+\[(\w+)=(\w+)\]
    applied with `re.search`: the leftmost position where the pattern matches.

    The pattern is a sequence of parts: runs of one character class and
    literal characters. Every run in it is followed by a part that cannot
    start with a character of the run's class (`\w+` by `\s`, `\s+` by `\d`
    or `[`, `\d+` by `\s`, the bracketed `\w+` by `=` or `]`). Shortening a
    run would leave a character of its own class where the next part must
    start, so backtracking never finds another match: a match takes the
    longest run at each step. `MatchParts` scans that way, and
    `MatchPartsComplete` proves that every way of splitting a text into
    pieces that fit the parts is the one `MatchParts` finds. */
module HubPattern {
  import opened Wrappers
  import opened Chars

  datatype Part = Run(cls: CharClass) | Literal(c: char)

  /** `(\w+)\s+(\d+)\s+(\d+)\s+\[(\w+)=(\w+)\]`; the groups are the parts
      at positions 0, 2, 4, 7 and 9. */
  const HubRegex: seq<Part> := [
    Run(Word), Run(Space), Run(Digit), Run(Space), Run(Digit), Run(Space),
    Literal('['), Run(Word), Literal('='), Run(Word), Literal(']')]

  /** The five groups of a match: hub name, x, y, metadata key, metadata value. */
  datatype Groups = Groups(name: string, x: string, y: string, key: string, value: string)

  /** A match of `re.search`: where it starts and what it captured. */
  datatype Found = Found(start: nat, groups: Groups)

  /** Groups the pattern can capture: word runs and digit runs, none empty. */
  predicate WellFormed(g: Groups) {
    IsRun(g.name, Word) && IsRun(g.x, Digit) && IsRun(g.y, Digit) &&
    IsRun(g.key, Word) && IsRun(g.value, Word)
  }

  // ---------------------------------------------------------------------
  // Runs of one class

  /** The end of the run of `cls` that starts at `i`; `RunEndIsLongest` says
      that it is the longest such run. */
  function RunEnd(s: string, i: nat, cls: CharClass): (j: nat)
    requires i <= |s|
    ensures i <= j <= |s|
    decreases |s| - i
  {
    if i < |s| && InClass(s[i], cls) then RunEnd(s, i + 1, cls) else i
  }

  lemma {:induction false} RunEndIsLongest(s: string, i: nat, cls: CharClass)
    requires i <= |s|
    ensures forall k :: i <= k < RunEnd(s, i, cls) ==> InClass(s[k], cls)
    ensures RunEnd(s, i, cls) == |s| || !InClass(s[RunEnd(s, i, cls)], cls)
    decreases |s| - i
  {
    if i < |s| && InClass(s[i], cls) {
      RunEndIsLongest(s, i + 1, cls);
    }
  }

  /** The run of `cls` from `i` ends exactly at `j` when everything in between
      belongs to `cls` and the character at `j` does not. */
  lemma {:induction false} RunEndExact(s: string, i: nat, j: nat, cls: CharClass)
    requires i <= j <= |s|
    requires forall k :: i <= k < j ==> InClass(s[k], cls)
    requires j == |s| || !InClass(s[j], cls)
    ensures RunEnd(s, i, cls) == j
    decreases j - i
  {
    if i < j {
      RunEndExact(s, i + 1, j, cls);
    }
  }

  // ---------------------------------------------------------------------
  // Matching a sequence of parts

  /** `t` occurs in `s` at position `i`. */
  predicate OccursAt(s: string, i: nat, t: string) {
    i + |t| <= |s| && forall k :: 0 <= k < |t| ==> s[i + k] == t[k]
  }

  /** The text of the pieces one after another. */
  function Concat(pieces: seq<string>): string {
    if pieces == [] then "" else pieces[0] + Concat(pieces[1..])
  }

  /** A piece of text that a part can consume. */
  predicate Fits(piece: string, part: Part) {
    if part.Literal? then piece == [part.c] else IsRun(piece, part.cls)
  }

  predicate AllFit(pieces: seq<string>, parts: seq<Part>) {
    |pieces| == |parts| && forall k :: 0 <= k < |parts| ==> Fits(pieces[k], parts[k])
  }

  /** The parts anchored at position `i`: the text each part consumed. */
  function MatchParts(s: string, i: nat, parts: seq<Part>): (r: Option<seq<string>>)
    requires i <= |s|
    ensures r.Some? ==> AllFit(r.value, parts) && OccursAt(s, i, Concat(r.value))
    decreases |parts|
  {
    if parts == [] then Some([])
    else
      var j := if parts[0].Literal? then i + 1 else RunEnd(s, i, parts[0].cls);
      if parts[0].Literal? && !(i < |s| && s[i] == parts[0].c) then None
      else if !parts[0].Literal? && j == i then None
      else match MatchParts(s, j, parts[1..])
        case None => None
        case Some(more) =>
          RunsFit(s, i, j, parts);
          FitCons(s[i..j], parts[0], more, parts[1..]);
          Glue(s, i, j, Concat(more));
          Some([s[i..j]] + more)
  }

  lemma RunsFit(s: string, i: nat, j: nat, parts: seq<Part>)
    requires parts != [] && i < j <= |s|
    requires parts[0].Literal? ==> j == i + 1 && s[i] == parts[0].c
    requires !parts[0].Literal? ==> j == RunEnd(s, i, parts[0].cls)
    ensures Fits(s[i..j], parts[0])
  {
    if !parts[0].Literal? {
      RunEndIsLongest(s, i, parts[0].cls);
    }
  }

  /** Putting a piece of `s` in front of an occurrence that follows it. */
  lemma Glue(s: string, i: nat, j: nat, rest: string)
    requires i <= j <= |s| && OccursAt(s, j, rest)
    ensures OccursAt(s, i, s[i..j] + rest)
  {
    forall k | 0 <= k < j - i + |rest|
      ensures s[i + k] == (s[i..j] + rest)[k]
    {
      if k >= j - i {
        assert s[j + (k - (j - i))] == rest[k - (j - i)];
      }
    }
  }

  lemma FitCons(piece: string, part: Part, more: seq<string>, parts: seq<Part>)
    requires Fits(piece, part) && AllFit(more, parts)
    ensures AllFit([piece] + more, [part] + parts) && Concat([piece] + more) == piece + Concat(more)
  {
    forall k | 0 <= k < 1 + |parts|
      ensures Fits(([piece] + more)[k], ([part] + parts)[k])
    {
      if k > 0 {
        assert Fits(more[k - 1], parts[k - 1]);
      }
    }
    assert ([piece] + more)[1..] == more;
  }

  // ---------------------------------------------------------------------
  // Greedy scanning is exact for separated patterns

  /** A character the part can begin with. */
  predicate CanStart(part: Part, c: char) {
    if part.Literal? then c == part.c else InClass(c, part.cls)
  }

  /** Every run is followed by a part that cannot begin with a character of
      the run's class, and the pattern ends with a literal. */
  predicate Separated(parts: seq<Part>) {
    (parts == [] || parts[|parts| - 1].Literal?) &&
    forall k, c :: 0 <= k < |parts| - 1 && parts[k].Run? && InClass(c, parts[k].cls) ==>
      !CanStart(parts[k + 1], c)
  }

  lemma SeparatedTail(parts: seq<Part>)
    requires parts != [] && Separated(parts)
    ensures Separated(parts[1..])
  {
    forall k, c | 0 <= k < |parts[1..]| - 1 && parts[1..][k].Run? && InClass(c, parts[1..][k].cls)
      ensures !CanStart(parts[1..][k + 1], c)
    {
      assert parts[1..][k] == parts[k + 1] && parts[1..][k + 1] == parts[k + 2];
    }
  }

  lemma HubRegexSeparated()
    ensures Separated(HubRegex)
  {
  }

  lemma FitsStart(piece: string, part: Part)
    requires Fits(piece, part)
    ensures |piece| > 0 && CanStart(part, piece[0])
  {
  }

  /** An occurrence of `a + b` is an occurrence of `a` followed by one of `b`. */
  lemma OccursSplit(s: string, i: nat, a: string, b: string)
    requires OccursAt(s, i, a + b)
    ensures OccursAt(s, i, a) && OccursAt(s, i + |a|, b) && s[i..i + |a|] == a
  {
    forall k | 0 <= k < |a|
      ensures s[i + k] == a[k]
    {
      assert (a + b)[k] == a[k];
    }
    forall k | 0 <= k < |b|
      ensures s[i + |a| + k] == b[k]
    {
      assert (a + b)[|a| + k] == b[k];
    }
  }

  /** Whatever pieces fit a separated pattern and occur at `i` are the pieces
      `MatchParts` takes there. */
  lemma {:induction false} MatchPartsComplete(s: string, i: nat, ps: seq<string>, parts: seq<Part>)
    requires i <= |s| && AllFit(ps, parts) && Separated(parts) && OccursAt(s, i, Concat(ps))
    ensures MatchParts(s, i, parts) == Some(ps)
    decreases |parts|
  {
    if parts != [] {
      var piece, j := ps[0], i + |ps[0]|;
      OccursSplit(s, i, piece, Concat(ps[1..]));
      assert AllFit(ps[1..], parts[1..]) by {
        forall k | 0 <= k < |parts[1..]|
          ensures Fits(ps[1..][k], parts[1..][k])
        {
          assert Fits(ps[k + 1], parts[k + 1]);
        }
      }
      assert Fits(piece, parts[0]);
      if parts[0].Run? {
        assert |parts| > 1;
        FitsStart(ps[1], parts[1]);
        assert ps[1..][0] == ps[1] && ps[1..][1..] == ps[2..];
        assert Concat(ps[1..]) == ps[1] + Concat(ps[2..]);
        assert s[j + 0] == Concat(ps[1..])[0] == ps[1][0];
        assert !InClass(s[j], parts[0].cls);
        RunEndExact(s, i, j, parts[0].cls);
      }
      SeparatedTail(parts);
      MatchPartsComplete(s, j, ps[1..], parts[1..]);
      assert s[i..j] == piece;
      assert [piece] + ps[1..] == ps;
    }
  }

  // ---------------------------------------------------------------------
  // The hub pattern

  /** The pattern anchored at position `p`: the five groups, or no match. */
  function MatchAt(s: string, p: nat): (r: Option<Groups>)
    requires p <= |s|
    ensures r.Some? ==> WellFormed(r.value)
  {
    match MatchParts(s, p, HubRegex)
    case None => None
    case Some(ps) =>
      assert Fits(ps[0], HubRegex[0]) && Fits(ps[2], HubRegex[2]) && Fits(ps[4], HubRegex[4]);
      assert Fits(ps[7], HubRegex[7]) && Fits(ps[9], HubRegex[9]);
      Some(Groups(ps[0], ps[2], ps[4], ps[7], ps[9]))
  }

  /** The text of a hub declaration with groups `g`, the three gaps of
      whitespace being `w1`, `w2` and `w3`. */
  function HubPieces(g: Groups, w1: string, w2: string, w3: string): seq<string> {
    [g.name, w1, g.x, w2, g.y, w3, "[", g.key, "=", g.value, "]"]
  }

  function Layout(g: Groups, w1: string, w2: string, w3: string): string {
    Concat(HubPieces(g, w1, w2, w3))
  }

  predicate Gaps(w1: string, w2: string, w3: string) {
    IsRun(w1, Space) && IsRun(w2, Space) && IsRun(w3, Space)
  }

  lemma HubPiecesFit(g: Groups, w1: string, w2: string, w3: string)
    requires WellFormed(g) && Gaps(w1, w2, w3)
    ensures AllFit(HubPieces(g, w1, w2, w3), HubRegex)
  {
  }

  /** Text that consists of the pieces of a hub declaration. */
  lemma FitHubPieces(ps: seq<string>)
    requires AllFit(ps, HubRegex)
    ensures ps == HubPieces(Groups(ps[0], ps[2], ps[4], ps[7], ps[9]), ps[1], ps[3], ps[5])
    ensures Gaps(ps[1], ps[3], ps[5])
  {
    assert Fits(ps[1], HubRegex[1]) && Fits(ps[3], HubRegex[3]) && Fits(ps[5], HubRegex[5]);
    assert Fits(ps[6], HubRegex[6]) && Fits(ps[8], HubRegex[8]) && Fits(ps[10], HubRegex[10]);
  }

  /** Wherever a hub declaration occurs, the pattern matches there and
      captures its groups. */
  lemma MatchAtComplete(s: string, p: nat, g: Groups, w1: string, w2: string, w3: string)
    requires p <= |s| && WellFormed(g) && Gaps(w1, w2, w3)
    requires OccursAt(s, p, Layout(g, w1, w2, w3))
    ensures MatchAt(s, p) == Some(g)
  {
    HubPiecesFit(g, w1, w2, w3);
    HubRegexSeparated();
    MatchPartsComplete(s, p, HubPieces(g, w1, w2, w3), HubRegex);
  }

  /** Wherever the pattern matches, a hub declaration with the captured
      groups occurs. */
  lemma MatchAtSound(s: string, p: nat)
    requires p <= |s| && MatchAt(s, p).Some?
    ensures exists w1, w2, w3 :: Gaps(w1, w2, w3) && OccursAt(s, p, Layout(MatchAt(s, p).value, w1, w2, w3))
  {
    var ps := MatchParts(s, p, HubRegex).value;
    FitHubPieces(ps);
    assert Layout(MatchAt(s, p).value, ps[1], ps[3], ps[5]) == Concat(ps);
  }

  // ---------------------------------------------------------------------
  // re.search

  /** The leftmost match at or after position `p`. */
  function SearchFrom(s: string, p: nat): (r: Option<Found>)
    requires p <= |s|
    ensures r.Some? ==> p <= r.value.start <= |s| && MatchAt(s, r.value.start) == Some(r.value.groups)
    ensures forall q :: p <= q <= |s| && (r.None? || q < r.value.start) ==> MatchAt(s, q).None?
    decreases |s| - p
  {
    match MatchAt(s, p)
    case Some(g) => Some(Found(p, g))
    case None => if p == |s| then None else SearchFrom(s, p + 1)
  }

  /** `re.search(pattern, s)`: the match that starts leftmost in `s`. */
  function Search(s: string): (r: Option<Found>)
    ensures r.Some? ==> r.value.start <= |s| && MatchAt(s, r.value.start) == Some(r.value.groups)
    ensures r.Some? ==> WellFormed(r.value.groups)
    ensures forall q :: 0 <= q <= |s| && (r.None? || q < r.value.start) ==> MatchAt(s, q).None?
  {
    SearchFrom(s, 0)
  }

  /** The pattern matches at no position before `n`. */
  predicate NoMatchBefore(s: string, n: nat)
    requires n <= |s|
  {
    forall q :: 0 <= q < n ==> MatchAt(s, q).None?
  }

  /** The pattern cannot match where no word character starts, nor where the
      run of word characters is not followed by whitespace, the end of the
      line included. */
  lemma NoMatchAt(s: string, q: nat)
    requires q <= |s|
    requires RunEnd(s, q, Word) == q || RunEnd(s, q, Word) == |s| || !IsSpaceChar(s[RunEnd(s, q, Word)])
    ensures MatchAt(s, q).None?
  {
    var j := RunEnd(s, q, Word);
    if j > q {
      assert RunEnd(s, j, Space) == j;
      assert MatchParts(s, j, HubRegex[1..]).None?;
    }
  }

  lemma OccursInside(a: string, t: string, b: string)
    ensures OccursAt(a + (t + b), |a|, t)
  {
    forall k | 0 <= k < |t|
      ensures (a + (t + b))[|a| + k] == t[k]
    {
    }
  }

  /** Before the text that follows `kw:` and optional whitespace the pattern
      matches nowhere. */
  lemma NoMatchInKeyword(kw: string, sp: string, t: string)
    requires IsRun(kw, Word) && AllIn(sp, Space)
    ensures NoMatchBefore(kw + ":" + sp + t, |kw + ":" + sp|)
  {
    var s := kw + ":" + sp + t;
    forall q | 0 <= q < |kw| + 1 + |sp|
      ensures MatchAt(s, q).None?
    {
      assert s[|kw|] == ':';
      if q < |kw| {
        forall k | q <= k < |kw|
          ensures InClass(s[k], Word)
        {
          assert s[k] == kw[k];
        }
        RunEndExact(s, q, |kw|, Word);
      } else {
        if q > |kw| {
          assert s[q] == sp[q - |kw| - 1];
        }
        RunEndExact(s, q, q, Word);
      }
      NoMatchAt(s, q);
    }
  }

  /** The leftmost match is the one at `start` when nothing matches before it. */
  lemma SearchFinds(s: string, start: nat, g: Groups)
    requires start <= |s| && MatchAt(s, start) == Some(g)
    requires NoMatchBefore(s, start)
    ensures Search(s) == Some(Found(start, g))
  {
  }

  /** A declaration line `kw:` followed by optional whitespace and a hub
      declaration: `re.search` finds the declaration, not anything earlier. */
  lemma SearchDeclaration(kw: string, sp: string, g: Groups, w1: string, w2: string, w3: string, rest: string)
    requires IsRun(kw, Word) && AllIn(sp, Space) && WellFormed(g) && Gaps(w1, w2, w3)
    ensures Search(kw + ":" + sp + (Layout(g, w1, w2, w3) + rest)) == Some(Found(|kw + ":" + sp|, g))
  {
    NoMatchInKeyword(kw, sp, Layout(g, w1, w2, w3) + rest);
    SearchAfter(kw + ":" + sp, g, w1, w2, w3, rest);
  }

  /** A hub declaration after text where the pattern matches nowhere is
      the leftmost match. */
  lemma SearchAfter(head: string, g: Groups, w1: string, w2: string, w3: string, rest: string)
    requires WellFormed(g) && Gaps(w1, w2, w3)
    requires NoMatchBefore(head + (Layout(g, w1, w2, w3) + rest), |head|)
    ensures Search(head + (Layout(g, w1, w2, w3) + rest)) == Some(Found(|head|, g))
  {
    DeclarationMatches(head, g, w1, w2, w3, rest);
    SearchFinds(head + (Layout(g, w1, w2, w3) + rest), |head|, g);
  }

  /** The pattern matches a hub declaration wherever it is placed. */
  lemma DeclarationMatches(head: string, g: Groups, w1: string, w2: string, w3: string, rest: string)
    requires WellFormed(g) && Gaps(w1, w2, w3)
    ensures MatchAt(head + (Layout(g, w1, w2, w3) + rest), |head|) == Some(g)
  {
    OccursInside(head, Layout(g, w1, w2, w3), rest);
    MatchAtComplete(head + (Layout(g, w1, w2, w3) + rest), |head|, g, w1, w2, w3);
  }

  /** Each literal of a matched pattern occurs in the text. */
  lemma {:induction false} LiteralMatched(s: string, i: nat, parts: seq<Part>, k: nat)
    requires i <= |s| && MatchParts(s, i, parts).Some?
    requires k < |parts| && parts[k].Literal?
    ensures exists m :: i <= m < |s| && s[m] == parts[k].c
    decreases |parts|
  {
    var j := if parts[0].Literal? then i + 1 else RunEnd(s, i, parts[0].cls);
    if k == 0 {
      assert s[i] == parts[k].c;
    } else {
      assert parts[1..][k - 1] == parts[k];
      LiteralMatched(s, j, parts[1..], k - 1);
    }
  }

  /** A line without `[` holds no hub declaration: `re.search` finds nothing. */
  lemma NoBracketNoMatch(s: string)
    requires forall m :: 0 <= m < |s| ==> s[m] != '['
    ensures Search(s).None?
  {
    forall q | 0 <= q <= |s|
      ensures MatchAt(s, q).None?
    {
      if MatchParts(s, q, HubRegex).Some? {
        LiteralMatched(s, q, HubRegex, 6);
      }
    }
  }

  /** The bracketed metadata block of a declaration. */
  function Block(key: string, value: string): string {
    "[" + key + "=" + value + "]"
  }

  lemma {:induction false} OccursSuffix(s: string, i: nat, ps: seq<string>, k: nat)
    requires OccursAt(s, i, Concat(ps)) && k <= |ps|
    ensures exists m :: i <= m && OccursAt(s, m, Concat(ps[k..]))
    decreases k
  {
    if k > 0 {
      OccursSplit(s, i, ps[0], Concat(ps[1..]));
      assert ps[1..][k - 1..] == ps[k..];
      OccursSuffix(s, i + |ps[0]|, ps[1..], k - 1);
    } else {
      assert ps[0..] == ps;
    }
  }

  lemma BlockPieces(ps: seq<string>)
    requires AllFit(ps, HubRegex)
    ensures Concat(ps[6..]) == Block(ps[7], ps[9])
  {
    assert Fits(ps[6], HubRegex[6]) && Fits(ps[8], HubRegex[8]) && Fits(ps[10], HubRegex[10]);
    var tail := ps[6..];
    assert tail[1..] == ps[7..] && ps[7..][1..] == ps[8..] && ps[8..][1..] == ps[9..];
    assert ps[9..][1..] == ps[10..] && ps[10..][1..] == [];
    assert Concat(ps[10..]) == "]";
    assert Concat(ps[9..]) == ps[9] + "]";
    assert Concat(ps[8..]) == "=" + ps[9] + "]";
    assert Concat(ps[7..]) == ps[7] + "=" + ps[9] + "]";
  }

  /** The pattern matches only where a metadata block `[<key>=<value>]` of
      two word runs follows: a line whose brackets hold two pairs, or a
      value with a character outside `\w`, declares nothing. */
  lemma MatchNeedsBlock(s: string, q: nat)
    requires q <= |s| && MatchAt(s, q).Some?
    ensures exists m :: q <= m && OccursAt(s, m, Block(MatchAt(s, q).value.key, MatchAt(s, q).value.value))
  {
    var ps := MatchParts(s, q, HubRegex).value;
    OccursSuffix(s, q, ps, 6);
    BlockPieces(ps);
  }
}
