/**
 `Utils.PokemonToDTO`: pick the first flavour text whose language name
 contains "en", turn its line breaks into spaces, and copy name, habitat
 and the legendary flag across.
 */
module Utils {
  import opened Models
  import Text

  const FormFeed: char := 12 as char

  predicate IsLineBreak(c: char) {
    c == '\n' || c == '\r' || c == FormFeed
  }

  /** The locale test of the `Find` predicate: the language name contains "en". */
  predicate IsEnglish(e: FlavorTextEntry) {
    Text.Contains(e.language, "en")
  }

  /** `i` is the position of the first English entry of `entries`. */
  ghost predicate IsFirstEnglish(entries: seq<FlavorTextEntry>, i: int) {
    && 0 <= i < |entries|
    && IsEnglish(entries[i])
    && forall j :: 0 <= j < i ==> !IsEnglish(entries[j])
  }

  /** `List.Find` with the English predicate, as the position of the entry it returns. */
  function FindEnglish(entries: seq<FlavorTextEntry>): (r: Option<nat>)
    ensures r.Some? ==> IsFirstEnglish(entries, r.value)
    ensures r.None? <==> forall j :: 0 <= j < |entries| ==> !IsEnglish(entries[j])
  {
    if |entries| == 0 then None
    else if IsEnglish(entries[0]) then Some(0)
    else
      match FindEnglish(entries[1..])
      case None => None
      case Some(i) => Some(i + 1)
  }

  /** There is at most one first English entry. */
  lemma FirstEnglishUnique(entries: seq<FlavorTextEntry>, i: int, k: int)
    requires IsFirstEnglish(entries, i) && IsFirstEnglish(entries, k)
    ensures i == k
  {
  }

  /** The three chained `Replace` calls: "\n", then "\r", then "\f", each by one space. */
  function Normalise(s: string): (r: string)
    ensures |r| == |s|
    ensures forall i :: 0 <= i < |s| && IsLineBreak(s[i]) ==> r[i] == ' '
    ensures forall i :: 0 <= i < |s| && !IsLineBreak(s[i]) ==> r[i] == s[i]
    ensures forall i :: 0 <= i < |r| ==> !IsLineBreak(r[i])
  {
    Text.ReplaceChar(Text.ReplaceChar(Text.ReplaceChar(s, '\n', ' '), '\r', ' '), FormFeed, ' ')
  }

  /** Normalising text that has already been normalised returns it unchanged. */
  lemma NormaliseIdempotent(s: string)
    ensures Normalise(Normalise(s)) == Normalise(s)
  {
  }

  /** Text without line breaks is a fixed point of normalisation. */
  lemma NormaliseKeepsCleanText(s: string)
    requires forall i :: 0 <= i < |s| ==> !IsLineBreak(s[i])
    ensures Normalise(s) == s
  {
  }

  /** Normalisation works character by character, so it distributes over concatenation. */
  lemma NormaliseConcat(a: string, b: string)
    ensures Normalise(a + b) == Normalise(a) + Normalise(b)
  {
  }

  /**
   The description selection shared by `PokemonToDTO` and the translator:
   the normalised text of the first English entry; no English entry is the
   null dereference after `Find`.
   */
  function SelectDescription(entries: seq<FlavorTextEntry>): (r: Result<string>)
    ensures r.Failure? <==> forall j :: 0 <= j < |entries| ==> !IsEnglish(entries[j])
    ensures r.Failure? ==> r.fault == NoEnglishEntry
    ensures r.Success? ==> exists i :: IsFirstEnglish(entries, i) && r.value == Normalise(entries[i].flavorText)
  {
    match FindEnglish(entries)
    case None => Failure(NoEnglishEntry)
    case Some(i) => Success(Normalise(entries[i].flavorText))
  }

  /** Entries before the first English one, and English ones after it, do not affect the description. */
  lemma SelectDescriptionIgnoresOthers(entries: seq<FlavorTextEntry>, i: int, others: seq<FlavorTextEntry>)
    requires IsFirstEnglish(entries, i)
    ensures SelectDescription(entries) == Success(Normalise(entries[i].flavorText))
    ensures SelectDescription(entries[..i + 1] + others) == SelectDescription(entries)
  {
    var r := SelectDescription(entries);
    var k :| IsFirstEnglish(entries, k) && r.value == Normalise(entries[k].flavorText);
    FirstEnglishUnique(entries, i, k);
    var longer := entries[..i + 1] + others;
    assert IsFirstEnglish(longer, i) by {
      assert forall j :: 0 <= j <= i ==> longer[j] == entries[j];
    }
    var r' := SelectDescription(longer);
    var k' :| IsFirstEnglish(longer, k') && r'.value == Normalise(longer[k'].flavorText);
    FirstEnglishUnique(longer, i, k');
  }

  /**
   `PokemonToDTO`. The fields are read in declaration order, so a null
   species faults first, then a missing habitat, then the failed `Find`.
   */
  function PokemonToDTO(pokemon: Pokemon): (r: Result<PokemonDto>)
    ensures pokemon.species.None? ==> r == Failure(NullSpecies)
    ensures pokemon.species.Some? && pokemon.species.value.habitat.None? ==> r == Failure(NullHabitat)
    ensures r.Success? <==>
      && pokemon.species.Some?
      && pokemon.species.value.habitat.Some?
      && exists j :: 0 <= j < |pokemon.species.value.entries| && IsEnglish(pokemon.species.value.entries[j])
    ensures r.Success? ==>
      && r.value.name == pokemon.name
      && r.value.habitat == pokemon.species.value.habitat.value
      && r.value.isLegendary == pokemon.species.value.isLegendary
      && exists i :: IsFirstEnglish(pokemon.species.value.entries, i)
           && r.value.description == Normalise(pokemon.species.value.entries[i].flavorText)
  {
    match pokemon.species
    case None => Failure(NullSpecies)
    case Some(species) =>
      match species.habitat
      case None => Failure(NullHabitat)
      case Some(habitat) =>
        match SelectDescription(species.entries)
        case Failure(f) => Failure(f)
        case Success(description) =>
          Success(PokemonDto(pokemon.name, description, habitat, species.isLegendary))
  }
}
