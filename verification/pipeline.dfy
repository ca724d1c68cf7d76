/**
 The translated lookup end to end: `GetTranslatedPokemonDescriptionWithConditions`
 over `PokemonService.GetPokemon`, with every upstream answer an input.
 */
module Pipeline {
  import opened Models
  import Utils
  import PokemonService
  import TranslatorService

  /** The two services composed; the requests of both, in the order they were made. */
  function TranslatePokemon(pokemonName: string,
                            primary: HttpAnswer<PokemonService.PokemonJson>,
                            species: HttpAnswer<Species>,
                            reply: HttpAnswer<TranslatorService.TranslationResponse>): (r: Result<TranslatorService.TranslationRun>)
    ensures r.Failure? ==> r.fault != NullSpecies
    ensures r.Success? ==> r.value.result.status in {OK, NotFound, InternalServerError}
    ensures r.Success? ==> 2 <= |r.value.requests| <= 3 || r.value.requests == [PokemonService.PokemonUrl(pokemonName)]
  {
    var lookup := PokemonService.GetPokemon(pokemonName, primary, species);
    match TranslatorService.GetTranslatedPokemonDescription(lookup.pokemon, reply)
    case Failure(f) => Failure(f)
    case Success(run) => Success(run.(requests := lookup.requests + run.requests))
  }

  /** An unknown name ends as NotFound after the one lookup: no species and no translation request. */
  lemma UnknownNameIsNotFound(pokemonName: string, body: Option<PokemonService.PokemonJson>,
                              species: HttpAnswer<Species>, reply: HttpAnswer<TranslatorService.TranslationResponse>)
    ensures TranslatePokemon(pokemonName, Answered(NotFound, body), species, reply)
              == Success(TranslatorService.TranslationRun(TranslatorService.PokemonTranslated(NotFound, None),
                                                          [PokemonService.PokemonUrl(pokemonName)]))
  {
  }

  /** A species link answered 404 becomes InternalServerError, and no translation is asked for. */
  lemma SpeciesNotFoundStopsPipeline(pokemonName: string, json: PokemonService.PokemonJson, primaryCode: int,
                                    speciesBody: Option<Species>, reply: HttpAnswer<TranslatorService.TranslationResponse>)
    requires IsSuccessStatusCode(primaryCode) && json.speciesUrl.Some?
    requires PokemonService.IsHttpLink(json.speciesUrl.value)
    ensures TranslatePokemon(pokemonName, Answered(primaryCode, Some(json)), Answered(NotFound, speciesBody), reply)
              == Success(TranslatorService.TranslationRun(TranslatorService.PokemonTranslated(InternalServerError, None),
                                                          [PokemonService.PokemonUrl(pokemonName), json.speciesUrl.value]))
  {
    var lookup := PokemonService.GetPokemon(pokemonName, Answered(primaryCode, Some(json)), Answered(NotFound, speciesBody));
    assert lookup.requests == [PokemonService.PokemonUrl(pokemonName), json.speciesUrl.value];
    assert lookup.requests + [] == lookup.requests;
  }

  /**
   Once both lookups succeed and the fields are there, the answer is OK
   whatever the translation API does, after exactly three requests.
   */
  lemma TranslationNeverFailsTheRequest(pokemonName: string, primary: HttpAnswer<PokemonService.PokemonJson>,
                                        species: HttpAnswer<Species>, reply: HttpAnswer<TranslatorService.TranslationResponse>)
    requires PokemonService.GetPokemon(pokemonName, primary, species).pokemon.status == OK
    requires species.body.Some? && species.body.value.habitat.Some?
    requires exists j :: 0 <= j < |species.body.value.entries| && Utils.IsEnglish(species.body.value.entries[j])
    ensures TranslatePokemon(pokemonName, primary, species, reply).Success?
    ensures TranslatePokemon(pokemonName, primary, species, reply).value.result.status == OK
    ensures |TranslatePokemon(pokemonName, primary, species, reply).value.requests| == 3
  {
  }
}
