/**
 `PokemonController.GetPokemon`: the service status decides between 404,
 200 with the DTO as body, and a 500 problem response.
 */
module PokemonController {
  import opened Models
  import Utils
  import PokemonService

  /**
   The action results: `NotFound()`, `Ok(dto)`, `Problem(statusCode: 500)`,
   and an exception that leaves the action unhandled.
   */
  datatype ActionResult =
    | NotFoundResult
    | OkObjectResult(dto: PokemonDto)
    | ProblemResult(statusCode: int)
    | UnhandledFault(fault: Fault)

  /** The HTTP status the caller sees; the framework answers an unhandled exception with 500. */
  function HttpStatus(result: ActionResult): int {
    match result
    case NotFoundResult => NotFound
    case OkObjectResult(_) => OK
    case ProblemResult(code) => code
    case UnhandledFault(_) => InternalServerError
  }

  /** The action, once the service has answered `pokemon`. */
  function GetPokemon(pokemon: Pokemon): (r: ActionResult)
    ensures r.NotFoundResult? <==> pokemon.status == NotFound
    ensures r.OkObjectResult? <==> pokemon.status == OK && Utils.PokemonToDTO(pokemon).Success?
    ensures r.OkObjectResult? ==> r.dto == Utils.PokemonToDTO(pokemon).value
    ensures r.UnhandledFault? <==> pokemon.status == OK && Utils.PokemonToDTO(pokemon).Failure?
    ensures r.ProblemResult? <==> pokemon.status != OK && pokemon.status != NotFound
    ensures r.ProblemResult? ==> r.statusCode == InternalServerError
  {
    if pokemon.status == NotFound then NotFoundResult
    else if pokemon.status == OK then
      match Utils.PokemonToDTO(pokemon)
      case Success(dto) => OkObjectResult(dto)
      case Failure(f) => UnhandledFault(f)
    else ProblemResult(InternalServerError)
  }

  /** Every service answer gets exactly one of the responses 404, 200 and 500. */
  lemma ResponseStatusIsOneOfThree(pokemon: Pokemon)
    ensures HttpStatus(GetPokemon(pokemon)) in {NotFound, OK, InternalServerError}
    ensures HttpStatus(GetPokemon(pokemon)) == NotFound <==> pokemon.status == NotFound
    ensures HttpStatus(GetPokemon(pokemon)) == OK <==> pokemon.status == OK && Utils.PokemonToDTO(pokemon).Success?
  {
  }

  /** The `pokemon/{name}` route end to end: the service's two lookups, then the action. */
  function ServePokemon(pokemonName: string, primary: HttpAnswer<PokemonService.PokemonJson>,
                        species: HttpAnswer<Species>): (r: ActionResult)
    ensures r.NotFoundResult? <==> primary.Answered? && primary.code == NotFound
    ensures r.UnhandledFault? ==> r.fault != NullSpecies
    ensures r.OkObjectResult? ==>
      && primary.Answered? && IsSuccessStatusCode(primary.code) && primary.body.Some?
      && species.Answered? && IsSuccessStatusCode(species.code) && species.body.Some?
      && r.dto.name == primary.body.value.name
      && Some(r.dto.habitat) == species.body.value.habitat
      && r.dto.isLegendary == species.body.value.isLegendary
  {
    GetPokemon(PokemonService.GetPokemon(pokemonName, primary, species).pokemon)
  }
}
