/**
 The records the service passes around, and the shapes of the upstream
 answers it reacts to. A C# reference that the code may leave null is an
 `Option`; an exception the code does not catch is a `Fault`.
 */
module Models {

  datatype Option<+T> = None | Some(value: T)

  /** The uncaught exceptions of the core: each is a null dereference in the source. */
  datatype Fault =
    | NullSpecies      // `pokemon.Species` is null
    | NullHabitat      // `Species.Habitat` is null (the upstream sends no habitat)
    | NoEnglishEntry   // `FlavorTextEntries.Find(...)` found nothing

  datatype Result<+T> = Success(value: T) | Failure(fault: Fault)

  /** The `HttpStatusCode` values the core sets or tests. */
  const OK: int := 200
  const NotFound: int := 404
  const InternalServerError: int := 500

  /** `HttpResponseMessage.IsSuccessStatusCode`. */
  predicate IsSuccessStatusCode(code: int) {
    200 <= code <= 299
  }

  /**
   What one outbound GET produced: a status code with a body that either
   deserialised (`Some`) or did not (`None`), or a transport-level exception.
   */
  datatype HttpAnswer<+T> = Answered(code: int, body: Option<T>) | TransportFault

  /** One element of `flavor_text_entries`: the text and its `language.name`. */
  datatype FlavorTextEntry = FlavorTextEntry(flavorText: string, language: string)

  /** The species detail: `habitat.name` (absent when the habitat is null), `is_legendary`, the entries in upstream order. */
  datatype Species = Species(habitat: Option<string>, isLegendary: bool, entries: seq<FlavorTextEntry>)

  /**
   A `Pokemon` as the service hands it on: the status it set, and the name and
   species detail, both null in the records built for a failed lookup.
   */
  datatype Pokemon = Pokemon(status: int, name: Option<string>, species: Option<Species>)

  /** The response body: `PokemonDTO`, and the payload fields of `PokemonTranslated`. */
  datatype PokemonDto = PokemonDto(name: Option<string>, description: string, habitat: string, isLegendary: bool)
}
