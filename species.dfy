/**
 * Resolution of a species ignition target against the mechanism's species
 * list: an ordered chain of candidate names (exact, lower-cased and, for an
 * excited-state name ending in '*', the base name and its lower-cased form),
 * the first one the mechanism knows giving the target index, and a fallback to
 * the pressure derivative when none is known.
 */
module Species {
  import opened Outcomes

  const Pressure: string := "pressure"
  const Temperature: string := "temperature"
  const Max: string := "max"
  const DerivativeMax: string := "d/dt max"

  /** An ignition target: a channel or species name as given, or a resolved species index. */
  datatype Target = Named(name: string) | Index(index: nat)

  datatype SetupError =
    | EmptyTargetName        // the last character of an empty name does not exist
    | MissingTimeHistory     // a volume history without its time column
    | ShortTimeHistory       // fewer than two times: no spacing to take the minimum of
    | WallProfile            // the velocity profile could not be built

  function LowerChar(c: char): char
  {
    if 'A' <= c <= 'Z' then (c as int + 32) as char else c
  }

  /** `str.lower()` on the ASCII letters a species name is made of. */
  function Lower(s: string): (r: string)
    ensures |r| == |s| && forall i :: 0 <= i < |s| ==> r[i] == LowerChar(s[i])
  {
    seq(|s|, i requires 0 <= i < |s| => LowerChar(s[i]))
  }

  /**
   * The mechanism's `species_index`: the position of a name in the species
   * list, or nothing when the mechanism does not know it.
   */
  function IndexOf(species: seq<string>, name: string): (r: Option<nat>)
    ensures r.None? <==> name !in species
    ensures r.Some? ==> r.value < |species| && species[r.value] == name
    ensures r.Some? ==> forall j :: 0 <= j < r.value ==> species[j] != name
  {
    if |species| == 0 then None
    else if species[0] == name then Some(0)
    else match IndexOf(species[1..], name)
      case None => None
      case Some(k) => Some(k + 1)
  }

  function Stripped(name: string): string
    requires |name| > 0
  {
    name[..|name| - 1]
  }

  /** The names tried, in order, for a species target. */
  function Candidates(name: string): (r: seq<string>)
    requires |name| > 0
    ensures |r| == 2 || |r| == 4
    ensures r[0] == name && r[1] == Lower(name)
    ensures |r| == 4 <==> name[|name| - 1] == '*'
    ensures |r| == 4 ==> r[2] == Stripped(name) && r[3] == Lower(Stripped(name))
  {
    var tries := [name, Lower(name)];
    if name[|name| - 1] == '*' then tries + [Stripped(name), Lower(Stripped(name))] else tries
  }

  /** The index of the first candidate the mechanism knows. */
  function FirstFound(candidates: seq<string>, species: seq<string>): (r: Option<nat>)
    ensures r.None? <==> forall j :: 0 <= j < |candidates| ==> candidates[j] !in species
    ensures r.Some? ==> r.value < |species| && species[r.value] in candidates
  {
    if |candidates| == 0 then None
    else if candidates[0] in species then IndexOf(species, candidates[0])
    else FirstFound(candidates[1..], species)
  }

  /** The earliest candidate present decides, whatever comes after it. */
  lemma {:induction false} FirstFoundIsEarliest(candidates: seq<string>, species: seq<string>, j: nat)
    requires j < |candidates| && candidates[j] in species
    requires forall l :: 0 <= l < j ==> candidates[l] !in species
    ensures FirstFound(candidates, species) == IndexOf(species, candidates[j])
  {
    if j > 0 {
      FirstFoundIsEarliest(candidates[1..], species, j - 1);
    }
  }

  /** The lookup loop: try each candidate in order and stop at the first hit. */
  method FindSpecies(candidates: seq<string>, species: seq<string>) returns (ind: Option<nat>)
    ensures ind == FirstFound(candidates, species)
  {
    ind := None;
    var i := 0;
    while i < |candidates|
      invariant 0 <= i <= |candidates|
      invariant FirstFound(candidates, species) == FirstFound(candidates[i..], species)
      invariant ind == None
    {
      ind := IndexOf(species, candidates[i]);
      if ind.Some? {
        assert candidates[i..][0] == candidates[i];
        break;
      }
      assert candidates[i..][1..] == candidates[i + 1..];
      i := i + 1;
    }
  }

  /**
   * The target and ignition type after resolution, with any found index
   * accepted (index 0 included). Pressure and temperature are kept as they are.
   */
  function ResolveTarget(name: string, ignitionType: string, species: seq<string>): (r: Result<(Target, string), SetupError>)
    ensures name == Pressure || name == Temperature ==> r == Ok((Named(name), ignitionType))
    ensures r.Err? <==> name != Pressure && name != Temperature && |name| == 0
    ensures r.Ok? && r.value.0.Index? ==> r.value.1 == ignitionType && r.value.0.index < |species|
  {
    if name == Pressure || name == Temperature then Ok((Named(name), ignitionType))
    else if |name| == 0 then Err(EmptyTargetName)
    else match FirstFound(Candidates(name), species)
      case Some(k) => Ok((Index(k), ignitionType))
      case None => Ok((Named(Pressure), DerivativeMax))
  }

  /**
   * The target resolution step of set-up: special channels pass through, a
   * species name is looked up candidate by candidate, and an unknown species
   * falls back to the pressure derivative.
   */
  method LookUpTarget(name: string, ignitionType: string, species: seq<string>) returns (r: Result<(Target, string), SetupError>)
    ensures r == ResolveTarget(name, ignitionType, species)
  {
    if name == Pressure || name == Temperature {
      return Ok((Named(name), ignitionType));
    }
    if |name| == 0 {
      return Err(EmptyTargetName);
    }
    var ind := FindSpecies(Candidates(name), species);
    if ind.Some? {
      r := Ok((Index(ind.value), ignitionType));
    } else {
      r := Ok((Named(Pressure), DerivativeMax));
    }
  }

  /** A species name the mechanism knows verbatim resolves to its own index. */
  lemma ExactNameWins(name: string, ignitionType: string, species: seq<string>)
    requires name != Pressure && name != Temperature && |name| > 0 && name in species
    ensures ResolveTarget(name, ignitionType, species) == Ok((Index(IndexOf(species, name).value), ignitionType))
  {
    FirstFoundIsEarliest(Candidates(name), species, 0);
  }

  /** Failing the exact name, the lower-cased name is tried next. */
  lemma LowerCaseSecond(name: string, ignitionType: string, species: seq<string>)
    requires name != Pressure && name != Temperature && |name| > 0
    requires name !in species && Lower(name) in species
    ensures ResolveTarget(name, ignitionType, species) == Ok((Index(IndexOf(species, Lower(name)).value), ignitionType))
  {
    FirstFoundIsEarliest(Candidates(name), species, 1);
  }

  /**
   * An excited-state name ('*' last) that is not known in either case falls
   * back to its base name, then to the lower-cased base name.
   */
  lemma ExcitedStateFallsBack(name: string, ignitionType: string, species: seq<string>)
    requires |name| > 1 && name[|name| - 1] == '*'
    requires name !in species && Lower(name) !in species
    requires Stripped(name) in species || Lower(Stripped(name)) in species
    ensures var base := if Stripped(name) in species then Stripped(name) else Lower(Stripped(name));
      ResolveTarget(name, ignitionType, species) == Ok((Index(IndexOf(species, base).value), ignitionType))
  {
    assert name != Pressure && name != Temperature;
    if Stripped(name) in species {
      FirstFoundIsEarliest(Candidates(name), species, 2);
    } else {
      FirstFoundIsEarliest(Candidates(name), species, 3);
    }
  }

  /**
   * When the mechanism knows none of the candidate names (for an excited-state
   * name, none of the four), the target becomes the pressure derivative.
   */
  lemma UnknownNameFallsBack(name: string, ignitionType: string, species: seq<string>)
    requires name != Pressure && name != Temperature && |name| > 0
    requires forall c :: c in Candidates(name) ==> c !in species
    ensures ResolveTarget(name, ignitionType, species) == Ok((Named(Pressure), DerivativeMax))
  {
    var c := Candidates(name);
    assert forall j :: 0 <= j < |c| ==> c[j] in c;
  }

  /**
   * The resolution as written: the found index is tested for truth, so a
   * species found at index 0 is treated as not found.
   */
  function ResolveTargetAsWritten(name: string, ignitionType: string, species: seq<string>): (r: Result<(Target, string), SetupError>)
    ensures FirstFoundAt(name, species, 0) ==> r == Ok((Named(Pressure), DerivativeMax))
    ensures !FirstFoundAt(name, species, 0) ==> r == ResolveTarget(name, ignitionType, species)
  {
    if name == Pressure || name == Temperature then Ok((Named(name), ignitionType))
    else if |name| == 0 then Err(EmptyTargetName)
    else match FirstFound(Candidates(name), species)
      case Some(k) => if k != 0 then Ok((Index(k), ignitionType)) else Ok((Named(Pressure), DerivativeMax))
      case None => Ok((Named(Pressure), DerivativeMax))
  }

  /** The name is a species target whose first known candidate sits at position k. */
  predicate FirstFoundAt(name: string, species: seq<string>, k: nat)
  {
    name != Pressure && name != Temperature && |name| > 0 && FirstFound(Candidates(name), species) == Some(k)
  }

  /**
   * A mechanism listing "OH" first: asking for "OH" as written falls back to
   * the pressure derivative, while the corrected resolution finds index 0.
   */
  lemma FirstSpeciesDroppedAsWritten()
    ensures ResolveTargetAsWritten("OH", Max, ["OH", "H2"]) == Ok((Named(Pressure), DerivativeMax))
    ensures ResolveTarget("OH", Max, ["OH", "H2"]) == Ok((Index(0), Max))
  {
    ExactNameWins("OH", Max, ["OH", "H2"]);
    assert IndexOf(["OH", "H2"], "OH") == Some(0);
  }
}
