/**
 `PokemonService.GetPokemon` and `GetPokemonSpecies`: a lookup of the
 Pokémon, then of the species its body links to, collapsed into one of
 three statuses. The HTTP answers are inputs; the URLs requested are
 returned so that what was asked for, and in which order, is observable.
 */
module PokemonService {
  import opened Models
  import Text

  /** The fields of the primary body the service uses: `name` and `species.url`. */
  datatype PokemonJson = PokemonJson(name: Option<string>, speciesUrl: Option<string>)

  /** The service's answer together with the URLs it requested, in order. */
  datatype Lookup = Lookup(pokemon: Pokemon, requests: seq<string>)

  const PokemonRoute: string := "/api/v2/pokemon/"

  /** The relative URL of the Pokémon lookup; the name goes in verbatim. */
  function PokemonUrl(pokemonName: string): (r: string)
    ensures Text.StartsWith(r, PokemonRoute)
    ensures r[|PokemonRoute|..] == pokemonName
  {
    PokemonRoute + pokemonName
  }

  /**
   A species link that `Uri.AbsoluteUri` and `HttpClient` let through: an
   http or https scheme, in any letter case. A relative link, or one with
   another scheme, throws before any request goes out.
   */
  predicate IsHttpLink(url: string) {
    Text.StartsWith(Text.Lower(url), "http://") || Text.StartsWith(Text.Lower(url), "https://")
  }

  /** The record built for a failed lookup: only the status is set. */
  function FailedLookup(status: int): Pokemon {
    Pokemon(status, None, None)
  }

  /**
   `GetPokemonSpecies`: the species detail, or null when the answer is a 404,
   any other non-success status, an undeserialisable body or a transport fault.
   */
  function GetPokemonSpecies(answer: HttpAnswer<Species>): (r: Option<Species>)
    ensures r.Some? <==> answer.Answered? && IsSuccessStatusCode(answer.code) && answer.body.Some?
    ensures r.Some? ==> r.value == answer.body.value
    ensures answer.Answered? && answer.code == NotFound ==> r.None?
  {
    match answer
    case TransportFault => None
    case Answered(code, body) =>
      if code == NotFound then None
      else if !IsSuccessStatusCode(code) then None
      else body
  }

  /**
   `GetPokemon`. `primary` answers the request for the Pokémon; `species`
   answers the request for its species URL, when that request is made.
   */
  function GetPokemon(pokemonName: string, primary: HttpAnswer<PokemonJson>, species: HttpAnswer<Species>): (r: Lookup)
    ensures r.pokemon.status in {OK, NotFound, InternalServerError}
    ensures 1 <= |r.requests| && r.requests[0] == PokemonUrl(pokemonName)
    ensures r.pokemon.status == NotFound <==> primary.Answered? && primary.code == NotFound
    ensures r.pokemon.status == NotFound ==> r.requests == [PokemonUrl(pokemonName)]
    ensures (primary.Answered? && primary.code != NotFound && !IsSuccessStatusCode(primary.code))
              ==> r.pokemon.status == InternalServerError && |r.requests| == 1
    ensures primary.TransportFault? ==> r.pokemon.status == InternalServerError && |r.requests| == 1
    ensures |r.requests| == 2 <==>
      && primary.Answered? && IsSuccessStatusCode(primary.code)
      && primary.body.Some? && primary.body.value.speciesUrl.Some?
      && IsHttpLink(primary.body.value.speciesUrl.value)
    ensures |r.requests| <= 2
    ensures |r.requests| == 2 ==> r.requests[1] == primary.body.value.speciesUrl.value
    ensures r.pokemon.status == OK <==>
      && |r.requests| == 2
      && species.Answered? && IsSuccessStatusCode(species.code) && species.body.Some?
    ensures r.pokemon.status == OK ==>
      r.pokemon == Pokemon(OK, primary.body.value.name, Some(species.body.value))
    ensures r.pokemon.status != OK ==> r.pokemon == FailedLookup(r.pokemon.status)
  {
    var requests := [PokemonUrl(pokemonName)];
    match primary
    case TransportFault => Lookup(FailedLookup(InternalServerError), requests)
    case Answered(code, body) =>
      if code == NotFound then Lookup(FailedLookup(NotFound), requests)
      else if !IsSuccessStatusCode(code) then Lookup(FailedLookup(InternalServerError), requests)
      else
        match body
        // `Pokemon.FromJson` threw
        case None => Lookup(FailedLookup(InternalServerError), requests)
        case Some(json) =>
          match json.speciesUrl
          // `pokemon.Species.Url` is null: the dereference throws before any request
          case None => Lookup(FailedLookup(InternalServerError), requests)
          case Some(url) =>
            // `pokemonSpeciesUrl.AbsoluteUri`, or the request for it, throws: caught, species null
            if !IsHttpLink(url) then Lookup(FailedLookup(InternalServerError), requests)
            else
            match GetPokemonSpecies(species)
            case None => Lookup(FailedLookup(InternalServerError), requests + [url])
            case Some(detail) => Lookup(Pokemon(OK, json.name, Some(detail)), requests + [url])
  }

  /** A species link answered 404 is reported as a server error, never as not found. */
  lemma SpeciesNotFoundIsServerError(pokemonName: string, json: PokemonJson, primaryCode: int, speciesBody: Option<Species>)
    requires IsSuccessStatusCode(primaryCode) && json.speciesUrl.Some?
    ensures GetPokemon(pokemonName, Answered(primaryCode, Some(json)), Answered(NotFound, speciesBody)).pokemon.status
              == InternalServerError
  {
  }

  /** A species link that is not an http(s) link ends the lookup as a server error, before any species request. */
  lemma NonHttpSpeciesLinkIsServerError(pokemonName: string, json: PokemonJson, primaryCode: int, species: HttpAnswer<Species>)
    requires IsSuccessStatusCode(primaryCode) && json.speciesUrl.Some? && !IsHttpLink(json.speciesUrl.value)
    ensures GetPokemon(pokemonName, Answered(primaryCode, Some(json)), species)
              == Lookup(FailedLookup(InternalServerError), [PokemonUrl(pokemonName)])
  {
  }

  /** When the primary lookup does not succeed, the species answer cannot influence the result. */
  lemma SpeciesIrrelevantWithoutPrimary(pokemonName: string, primary: HttpAnswer<PokemonJson>, s1: HttpAnswer<Species>, s2: HttpAnswer<Species>)
    requires !(primary.Answered? && IsSuccessStatusCode(primary.code))
    ensures GetPokemon(pokemonName, primary, s1) == GetPokemon(pokemonName, primary, s2)
  {
  }
}
